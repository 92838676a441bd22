# StellarArchive: date arithmetic, APOD store and swipe navigation

StellarArchive is a React Native client for NASA's Astronomy Picture of the Day
(APOD) service. The logic behind its main screen is small:

- `YYYY-MM-DD` date strings are stepped one calendar day forward or back.
- A store caches fetched records by date and holds the displayed date, the direction
  of the last swipe and whether the explanation sheet is open.
- The main screen turns horizontal swipes into day changes. It refuses to move into
  the future. When the date changes it shows a cached record or fetches one, and it
  skips up to five days whose record is not an image.

This project models that logic in Dafny and proves what it promises.

| module | file | models |
|---|---|---|
| `Calendar` | `calendar.dfy` | proleptic Gregorian dates, next/previous day, a day count used as the reference |
| `DateFormatting` | `date_formatting.dfy` | `src/utils/DateFormatting.ts`: parsing and `toISOString` formatting, `incrementDate`, `decrementDate`, `createCurrentDate`, `formatDateToStr` |
| `Store` | `apod_store.dfy` | `src/store/ApodStore.ts`: the Zustand store as a class with a `map` field |
| `LegacyStore` | `legacy_apod_store.dfy` | `app/store/ApodStore.js`: the earlier store |
| `IndexScreen` | `index_screen.dfy` | `app/index.tsx`: swipe decision, navigation handlers, date-picker handler, date-change effect, `fetchApods` and its skip loop |
| `Wrappers` | `wrappers.dfy` | `Option` |

Modelling choices:

- **Dates.** A date is a `(year, month, day)` triple with the month lengths and the
  leap-year rule of RFC 3339 section 5.7.
- **Strings.** `ParseDate` reads the four-digit-year `YYYY-MM-DD` form
  (`full-date` of RFC 3339 section 5.6) with a real month and day. It reads no
  other string, as "Left out" explains. `toISOString().split("T")[0]` writes
  four-digit years as `YYYY`. Outside 0..9999 it writes a sign and six digits,
  as JavaScript does.
- **Time zone.** The device runs in UTC, so `setDate`, `setHours` and
  `toISOString` all work on the same calendar day.
- **Errors.** Where the source throws (`toISOString` on an Invalid Date raises a
  RangeError), the model returns `None` or a `Threw` outcome.
- **Network.** The remote service is a total function `api` from a date string to
  `Option<Apod>`. `None` stands for a failed `fetch` or `response.json()`.
- **Inputs.** The clock ("today") and the swipe threshold are parameters.
- **`DayNumber`.** It counts days from 0000-01-01, year by year and month by month.
  It agrees with the Gregorian closed form. For every valid date it equals
  ECMAScript's day from 1970-01-01 (`MakeDay`, built on `DayFromYear`) plus 719528.
  That day is the time value of the date's midnight divided by 86400000. It is the
  independent reference for the day steps and for the `nextDay >= today` comparison.

`fetchApods` is proved in two layers:

1. `SkipSearch` is the loop's meaning, generic over the step function and written
   as a recursive function.
2. `SkipLoop` is the loop itself, a `while` loop proved equal to `SkipSearch`.

The lemmas about `SkipSearch` cover the request bound, the consecutive one-day
steps, how the search ends, success given room and records, and exhausting the
bound. They are proved once for any step that advances a measure by one. They are
then instantiated for `incrementDate` and `decrementDate`, measured by day number.

## Model

| member | source | states |
|---|---|---|
| Calendar.NextDayIsOneDayLater | src/utils/DateFormatting.ts:20 | `setDate(getDate() + 1)` moves the day count forward by exactly one, across month and year ends |
| Calendar.PrevDayIsOneDayEarlier | src/utils/DateFormatting.ts:28 | `setDate(getDate() - 1)` moves the day count back by exactly one |
| Calendar.NextDayIsSuccessor | src/utils/DateFormatting.ts:18-23 | the next day is after the date and no valid date lies strictly between them (so month ends roll to the 1st, Dec 31 to Jan 1, Feb 28 to Feb 29 only in leap years) |
| Calendar.PrevDayIsPredecessor | src/utils/DateFormatting.ts:26-31 | the previous day is before the date and no valid date lies strictly between (Mar 1 goes to Feb 29 or Feb 28, Jan 1 to Dec 31 of the year before) |
| Calendar.NextPrevInverse | src/utils/DateFormatting.ts:18-31 | next and previous day undo each other on every valid date |
| Calendar.BeforeIffEarlierDayNumber | app/index.tsx:149 | comparing midnight time values (`nextDay >= today`) is comparing dates chronologically |
| Calendar.DaysBeforeYearClosedForm | src/utils/DateFormatting.ts:20 | the year-by-year day count equals the Gregorian closed form 365y + leap days, for every year |
| Calendar.DaysBeforeYearIsDayFromYear | src/utils/DateFormatting.ts:19-20 | for every year, the day count from 0000-01-01 is ECMAScript's `DayFromYear` (days from 1970-01-01) plus 719528 |
| Calendar.DayNumberIsEpochDay | src/utils/DateFormatting.ts:19-20 | for every valid date, the day count is ECMAScript's `MakeDay` (the midnight time value over 86400000) plus 719528 |
| Calendar.UnixEpochDayNumber | src/utils/DateFormatting.ts:20 | 1970-01-01, time value 0, is day 719528 |
| DateFormatting.IsoDatePart | src/utils/DateFormatting.ts:13 | the date part of `toISOString` for a four-digit year is 10 characters with `-` at positions 4 and 7 |
| DateFormatting.ParseDate | src/utils/DateFormatting.ts:19 | a string read as a date by the model of `new Date(s)` is a 10-character `YYYY-MM-DD` whose date is valid and has a four-digit year; other string forms are outside the model (see "Left out") |
| DateFormatting.FormatThenParse | src/utils/DateFormatting.ts:19-21 | formatting a four-digit-year date and parsing the result gives the date back |
| DateFormatting.ParseThenFormat | src/utils/DateFormatting.ts:19-21 | parsing a valid date string and formatting the date gives the string back |
| DateFormatting.IsoOrderIsChronological | src/utils/DateFormatting.ts:18-31 | for four-digit years, string order of the formatted dates is chronological order, both ways |
| DateFormatting.IncrementDate | src/utils/DateFormatting.ts:18-23 | `incrementDate` returns a string exactly when its input is a valid date string (otherwise `toISOString` throws) |
| DateFormatting.DecrementDate | src/utils/DateFormatting.ts:26-31 | `decrementDate` returns a string exactly when its input is a valid date string |
| DateFormatting.IncrementDateIsNextCalendarDay | src/utils/DateFormatting.ts:18-23 | below 9999-12-31 the result is a well-formed date string for the next calendar day, one day later in the day count |
| DateFormatting.DecrementDateIsPrevCalendarDay | src/utils/DateFormatting.ts:26-31 | above 0000-01-01 the result is a well-formed date string for the previous calendar day, one day earlier |
| DateFormatting.IncrementThenDecrement | src/utils/DateFormatting.ts:18-31 | `decrementDate(incrementDate(d)) == d` for every valid d below 9999-12-31 |
| DateFormatting.DecrementThenIncrement | src/utils/DateFormatting.ts:18-31 | `incrementDate(decrementDate(d)) == d` for every valid d above 0000-01-01 |
| DateFormatting.IncrementDateIncreases | src/utils/DateFormatting.ts:18-23 | `incrementDate(d) > d` in string order for every valid d except 9999-12-31 (see the next row but one) |
| DateFormatting.DecrementDateDecreases | src/utils/DateFormatting.ts:26-31 | `decrementDate(d) < d` in string order for every valid d, 0000-01-01 included (`-` sorts below the digits) |
| DateFormatting.IncrementPastYear9999SortsLower | src/utils/DateFormatting.ts:18-23 | at 9999-12-31 string order fails: `incrementDate` gives `"+010000-01-01"`, which sorts below its input |
| DateFormatting.IncrementPastYear9999 | src/utils/DateFormatting.ts:21 | `incrementDate("9999-12-31")` is `"+010000-01-01"`, the expanded year form |
| DateFormatting.DecrementBeforeYear0 | src/utils/DateFormatting.ts:29 | `decrementDate("0000-01-01")` is `"-000001-12-31"` |
| DateFormatting.JsDate.SetMidnight | src/utils/DateFormatting.ts:6 | `setHours(0, 0, 0, 0)` keeps the calendar date and zeroes the time of day |
| DateFormatting.CreateCurrentDate | src/utils/DateFormatting.ts:4-8 | a fresh `Date` on the clock's day with hours, minutes, seconds and milliseconds zero |
| DateFormatting.FormatDateToStr | src/utils/DateFormatting.ts:11-15 | the result is the `YYYY-MM-DD` of the argument's day, whatever its time of day; the argument itself is moved to midnight |
| Store.Cached | src/store/ApodStore.ts:36-42 | the new map holds the record under the date, keeps every other entry, and has the old keys plus the date |
| Store.CachedOverwrites | src/store/ApodStore.ts:36-42 | a later store under the same date overwrites the earlier record |
| Store.CachedIdempotent | src/store/ApodStore.ts:36-42 | storing the same record twice equals storing it once |
| Store.CachedCommutes | src/store/ApodStore.ts:37-41 | stores under different dates commute |
| Store.ApodStore.constructor | src/store/ApodStore.ts:21-25 | initial state: empty cache, sheet closed, current date `""`, no direction |
| Store.ApodStore.SetApodDate | src/store/ApodStore.ts:28-29 | sets date and direction together; cache and sheet flag unchanged |
| Store.ApodStore.OpenSheet | src/store/ApodStore.ts:32 | the sheet is open afterwards whatever it was; nothing else changes |
| Store.ApodStore.CloseSheet | src/store/ApodStore.ts:33 | the sheet is closed afterwards whatever it was; nothing else changes |
| Store.ApodStore.CacheApodData | src/store/ApodStore.ts:36-42 | the map becomes `Cached(old map, date, data)`; the other fields are unchanged |
| LegacyStore.ApodStore.constructor | app/store/ApodStore.js:8-10 | initially the cache is empty and the sheet closed |
| LegacyStore.ApodStore.OpenSheet | app/store/ApodStore.js:13 | the sheet is open afterwards, so a second call changes nothing; the cache is untouched |
| LegacyStore.ApodStore.CloseSheet | app/store/ApodStore.js:14 | the sheet is closed afterwards, so a second call changes nothing; the cache is untouched |
| IndexScreen.PanDecision | app/index.tsx:172-178 | next day exactly when the offset is above the threshold, previous day exactly when below its negation, nothing exactly in between |
| IndexScreen.PrevDayOutcome | app/index.tsx:115-131 | refused exactly when no APOD is loaded; otherwise moves LEFT to `decrementDate` of the current date, with no lower bound, or throws on an invalid date |
| IndexScreen.NextDayOutcome | app/index.tsx:134-160 | refused exactly when no APOD is loaded or the next day is not before today; throws exactly on an invalid date; otherwise moves RIGHT to `incrementDate` of the current date, which is before today |
| IndexScreen.MidnightComparisonIsDateOrder | app/index.tsx:141-149 | `nextDay >= today` on the two midnight time values holds exactly when the next day is not before today |
| IndexScreen.ForwardNeverReachesToday | app/index.tsx:142-152 | a forward move always lands strictly before today, also in string order |
| IndexScreen.ForwardRefusedFromTodayAndYesterday | app/index.tsx:142-152 | from today, and from yesterday, a forward swipe is refused |
| IndexScreen.PanEndOutcome | app/index.tsx:169-183 | within the threshold nothing happens; past +threshold the outcome is the next-day handler's (move, refusal or throw), past -threshold the previous-day handler's; a RIGHT move happens exactly past +threshold when the next-day handler moves, a LEFT move exactly past -threshold when the previous-day handler moves |
| IndexScreen.SkipSearchRequests | app/index.tsx:289-309 | at most `MAX_APOD_SKIPS + 1` requests, the first for the start date, each next one a single step from the one before, every one but the last answered with a non-image |
| IndexScreen.SkipSearchOutcome | app/index.tsx:279-309 | a success returns the last requested date and its record; a non-image success used every skip; a failure is a failed request or a step that threw |
| IndexScreen.ForwardStep | app/index.tsx:298-301 | a forward skip from a date before 9999-12-31 lands exactly one day later |
| IndexScreen.BackwardStep | app/index.tsx:298-301 | a backward skip from a date after 0000-01-01 lands exactly one day earlier |
| IndexScreen.DayStepAdvances | app/index.tsx:298-301 | RIGHT skips forward; LEFT and no direction skip backward; each skip advances one day in that direction |
| IndexScreen.AdvancingSearchSucceeds | app/index.tsx:291-309 | along any one-step-advancing step with room for every skip, a service that always answers makes the search succeed |
| IndexScreen.AdvancingSearchExhausts | app/index.tsx:291-309 | along such a step, all-non-image answers use the whole bound and land exactly `skipsLeft` steps further |
| IndexScreen.SearchWithRoomSucceeds | app/index.tsx:282-309 | with room for every skip in the swipe direction and a service that always answers, `fetchApods` succeeds |
| IndexScreen.NonImageDaysExhaustTheBound | app/index.tsx:291-309 | when no day has an image, exactly `MAX_APOD_SKIPS + 1` requests are made (the bound, not one more) and the last record is returned, that many days away |
| IndexScreen.SkipLoopCanPassToday | app/index.tsx:295-301 | the skip loop has no "no future" guard: from yesterday with a RIGHT swipe and no images it ends after today |
| IndexScreen.SkipLoop | app/index.tsx:291-309 | the `while` loop computes exactly `SkipSearch` with the `MAX_APOD_SKIPS` bound |
| IndexScreen.LookupDate | app/index.tsx:238-258 | an empty date becomes today; the lookup is a cache hit exactly when the date is cached, and then carries the cached record |
| IndexScreen.Index.constructor | app/index.tsx:54-56 | on mount no record is shown, the picker is hidden and its value is the current `Date` |
| IndexScreen.Index.FetchApods | app/index.tsx:279-337 | returns the skip search; on success shows the final record, caches it under the final date and makes that date current with the direction kept; on failure nothing changes; the picker state is never touched |
| IndexScreen.Index.OnDateChanged | app/index.tsx:238-258 | a cache hit shows the cached record with no request, no store change and the picker untouched; only a miss runs `fetchApods`, for today when the date was empty |
| IndexScreen.Index.NavigateToPrevDay | app/index.tsx:115-131 | the outcome is `PrevDayOutcome`; the store changes only by the date and direction of a move |
| IndexScreen.Index.NavigateToNextDay | app/index.tsx:134-160 | the outcome is `NextDayOutcome`; a refusal or throw leaves the store unchanged |
| IndexScreen.Index.OnPanEnd | app/index.tsx:169-183 | the outcome is `PanEndOutcome`; the card snaps back exactly when no navigation happened |
| IndexScreen.Index.OnDateSelected | app/index.tsx:99-112 | the picker is hidden; only a `"set"` event with a date stores that date (moved to midnight) as current with direction LEFT; otherwise the store is unchanged |
| IndexScreen.Index.OnSwipeUp | app/index.tsx:190-195 | the upward fling opens the sheet and changes nothing else |
| IndexScreen.Index.OnSheetClosed | app/index.tsx:400 | closing the sheet records it as closed and changes nothing else |

## Behaviour of the code worth knowing

- The comment at `app/index.tsx:147-148` says users must not reach future APODs.
  The forward-swipe guard keeps that intent. But `fetchApods` skips forward with
  no such guard, so a run of non-image days from yesterday ends after today
  (`IndexScreen.SkipLoopCanPassToday`).
- Both navigation handlers return early while no APOD is loaded
  (`app/index.tsx:117-120` and `app/index.tsx:136-139`), so a swipe backward is
  refused then too (`IndexScreen.PrevDayOutcome`).
- Outputs of `incrementDate`/`decrementDate` are well-formed `YYYY-MM-DD` only
  inside four-digit years. At 9999-12-31 and 0000-01-01 `toISOString` writes the
  expanded year form (`DateFormatting.IncrementPastYear9999`,
  `DateFormatting.DecrementBeforeYear0`). At 9999-12-31 this also breaks string
  order, since `+` sorts below every digit
  (`DateFormatting.IncrementPastYear9999SortsLower`).
- An empty current date stands for today, as in the effect's code.

## Left out

- `fetch`, `response.json()` and the API key: the service is the `api` parameter.
  The catch-all `try` is modelled as the `Failed` outcome. Any failed request or
  throwing step fails the whole search.
- Animations and gesture plumbing (`withSpring`, `interpolate`, `translateX`,
  `runOnJS`, `Gesture.Simultaneous`), the peek animation effect, the status bar
  effect, the full-screen toggle and the focus-driven sheet effect: these are UI
  driven by libraries.
- `SWIPE_THRESHOLD = SCREEN_WIDTH * 0.3` is a floating-point product of the screen
  width. It is taken as a positive integer parameter.
- Time zones and daylight saving: the model fixes the device to UTC. Local
  midnight in `formatDateToStr`/`createCurrentDate` is UTC midnight.
- `ParseDate` covers only four-digit `YYYY-MM-DD` with a real month and day.
  ECMAScript's Date Time String Format also defines the `YYYY` and `YYYY-MM`
  forms, date-time forms, and the expanded years `+YYYYYY`/`-YYYYYY`. Strings
  with an out-of-range day such as `"2023-02-30"` fall to the engine's own
  parsing. The model treats all of these as Invalid Dates. The consequences:
  - `IncrementDate`/`DecrementDate` return `None` on the expanded-year strings
    they themselves produce at the boundaries. The program steps back from them:
    `decrementDate("+010000-01-01")` is `"9999-12-31"`.
  - `IncrementThenDecrement` and `DecrementThenIncrement` leave out 9999-12-31
    and 0000-01-01, although the program round-trips there too.
- Concurrency: overlapping `fetchApods` calls, and when React re-runs an effect.
  The date-change effect is an explicit call, `OnDateChanged`.
- Toasts and logging: a refused forward swipe and a failed fetch show a toast.
  The model records the refusal (`NotNavigated`) and the failure (`Failed`), but
  not the toast itself.
- Rendering components and the date picker's `minimumDate`/`maximumDate` bounds:
  they are widget properties that the logic does not enforce.
- `src/types/enums/SwipeDirection.ts` and `src/types/interfaces/Apod.ts` are not
  part of this model. Their shapes (`Left | Right`, the record's fields) are
  declared in `Store`.
- IndexScreen.ForwardStep: the step facts are stated only inside four-digit years.
  `ParseDate` does not read the expanded year past 9999-12-31, so no claim is made
  there.
- IndexScreen.BackwardStep: likewise stated only after 0000-01-01.
