/** The application store (`useAppStore.ts`): whether the database is
    ready, a version counter that screens watch to reload their data, and
    the unsaved new-rental form. */
module AppStore {
  import opened Wrappers
  import opened Domain

  class Store {
    var dbReady: bool
    var dataVersion: nat
    var rentalFormDraft: Option<RentalFormDraft>

    /** The store as created: database not ready, version 0, no draft. */
    constructor ()
      ensures !dbReady && dataVersion == 0 && rentalFormDraft.None?
    {
      dbReady := false;
      dataVersion := 0;
      rentalFormDraft := None;
    }

    /** `setDbReady`: only the flag changes. */
    method SetDbReady(ready: bool)
      modifies this
      ensures dbReady == ready
      ensures dataVersion == old(dataVersion) && rentalFormDraft == old(rentalFormDraft)
    {
      dbReady := ready;
    }

    /** `bumpDataVersion`: the version goes up by exactly one and nothing
        else changes. */
    method BumpDataVersion()
      modifies this
      ensures dataVersion == old(dataVersion) + 1
      ensures dbReady == old(dbReady) && rentalFormDraft == old(rentalFormDraft)
    {
      dataVersion := dataVersion + 1;
    }

    /** `setRentalFormDraft`: the draft is kept as given. */
    method SetRentalFormDraft(draft: RentalFormDraft)
      modifies this
      ensures rentalFormDraft == Some(draft)
      ensures dbReady == old(dbReady) && dataVersion == old(dataVersion)
    {
      rentalFormDraft := Some(draft);
    }

    /** `clearRentalFormDraft`: the draft is dropped. */
    method ClearRentalFormDraft()
      modifies this
      ensures rentalFormDraft.None?
      ensures dbReady == old(dbReady) && dataVersion == old(dataVersion)
    {
      rentalFormDraft := None;
    }
  }
}
