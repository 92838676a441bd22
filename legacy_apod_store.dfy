/**
  The earlier store of `app/store/ApodStore.js`: a cache field and the
  explanation-sheet flag, with actions that only set the flag.
 */
module LegacyStore {
  import opened Store

  class ApodStore {
    var pastQueries: map<string, Apod>
    var isSheetOpen: bool

    constructor ()
      ensures pastQueries == map[] && !isSheetOpen
    {
      pastQueries := map[];
      isSheetOpen := false;
    }

    /** `openSheet`: sets the flag; a second call leaves the state as it is. */
    method OpenSheet()
      modifies this
      ensures isSheetOpen && pastQueries == old(pastQueries)
    {
      isSheetOpen := true;
    }

    /** `closeSheet`: clears the flag; a second call leaves the state as it is. */
    method CloseSheet()
      modifies this
      ensures !isSheetOpen && pastQueries == old(pastQueries)
    {
      isSheetOpen := false;
    }
  }
}
