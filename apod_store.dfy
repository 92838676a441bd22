/**
  The Zustand store of `src/store/ApodStore.ts`: a cache of fetched APOD records
  keyed by date string, the explanation-sheet flag, the displayed date and the
  direction of the last swipe. Zustand's `set` merges the fields it is given into
  the state and keeps every other field, so each action below states both what it
  changes and what it keeps.
 */
module Store {
  import opened Wrappers

  /** Direction of the swipe that led to the current date. */
  datatype SwipeDirection = Left | Right

  /** One APOD record as the remote service returns it. */
  datatype Apod = Apod(
    date: string,
    explanation: string,
    mediaType: string,
    serviceVersion: string,
    title: string,
    url: string)

  /**
    The cache after storing `data` under `date`: `date` maps to `data`, the other
    keys keep their records, and no key is removed.
   */
  function Cached(pastQueries: map<string, Apod>, date: string, data: Apod): (r: map<string, Apod>)
    ensures r.Keys == pastQueries.Keys + {date}
    ensures date in r && r[date] == data
    ensures forall k :: k in pastQueries && k != date ==> k in r && r[k] == pastQueries[k]
  {
    pastQueries[date := data]
  }

  /** A later store under the same date overwrites the earlier one. */
  lemma CachedOverwrites(m: map<string, Apod>, date: string, first: Apod, second: Apod)
    ensures Cached(Cached(m, date, first), date, second) == Cached(m, date, second)
  {
  }

  /** Storing the same record twice is the same as storing it once. */
  lemma CachedIdempotent(m: map<string, Apod>, date: string, data: Apod)
    ensures Cached(Cached(m, date, data), date, data) == Cached(m, date, data)
  {
    CachedOverwrites(m, date, data, data);
  }

  /** Stores under different dates commute. */
  lemma CachedCommutes(m: map<string, Apod>, d1: string, r1: Apod, d2: string, r2: Apod)
    requires d1 != d2
    ensures Cached(Cached(m, d1, r1), d2, r2) == Cached(Cached(m, d2, r2), d1, r1)
  {
  }

  class ApodStore {
    var pastQueries: map<string, Apod>
    var isSheetOpen: bool
    var currentDate: string
    var swipeDirection: Option<SwipeDirection>

    /** The initial state: empty cache, sheet closed, no date, no direction. */
    constructor ()
      ensures pastQueries == map[] && !isSheetOpen
      ensures currentDate == "" && swipeDirection == None
    {
      pastQueries := map[];
      isSheetOpen := false;
      currentDate := "";
      swipeDirection := None;
    }

    /** `setApodDate`: date and direction change together in one update. */
    method SetApodDate(date: string, direction: Option<SwipeDirection>)
      modifies this
      ensures currentDate == date && swipeDirection == direction
      ensures pastQueries == old(pastQueries) && isSheetOpen == old(isSheetOpen)
    {
      currentDate, swipeDirection := date, direction;
    }

    /** `openSheet`: the sheet is open afterwards, whatever it was before. */
    method OpenSheet()
      modifies this
      ensures isSheetOpen
      ensures pastQueries == old(pastQueries)
      ensures currentDate == old(currentDate) && swipeDirection == old(swipeDirection)
    {
      isSheetOpen := true;
    }

    /** `closeSheet`: the sheet is closed afterwards, whatever it was before. */
    method CloseSheet()
      modifies this
      ensures !isSheetOpen
      ensures pastQueries == old(pastQueries)
      ensures currentDate == old(currentDate) && swipeDirection == old(swipeDirection)
    {
      isSheetOpen := false;
    }

    /** `cacheApodData`: the map is replaced by a copy extended with one entry. */
    method CacheApodData(date: string, data: Apod)
      modifies this
      ensures pastQueries == Cached(old(pastQueries), date, data)
      ensures isSheetOpen == old(isSheetOpen)
      ensures currentDate == old(currentDate) && swipeDirection == old(swipeDirection)
    {
      pastQueries := Cached(pastQueries, date, data);
    }
  }
}
