/** The server's start-up blog sync: at most one automatic sync per process, run only when the
    last recorded sync is missing or more than an hour old. */
module StartupSync {
  import opened Wrappers

  const StaleAfter := 60 * 60 * 1000

  /** A sync is due when none is recorded or the last one is more than an hour old. */
  predicate ShouldSync(lastSync: Option<int>, now: int) {
    lastSync.None? || now - lastSync.value > StaleAfter
  }

  /** Once due, a sync stays due as time passes. */
  lemma ShouldSyncMonotone(lastSync: Option<int>, now: int, later: int)
    requires now <= later && ShouldSync(lastSync, now)
    ensures ShouldSync(lastSync, later)
  {
  }

  /** Up to an hour after a recorded sync, none is due. */
  lemma NotDueWithinHour(lastSync: int, now: int)
    requires now <= lastSync + StaleAfter
    ensures !ShouldSync(Some(lastSync), now)
  {
  }

  /** The module-level flags of `ensureBlogSync`, and (for the proofs) how many syncs it has
      started. */
  class StartupGuard {
    var isInitialSyncRunning: bool
    var hasCompletedInitialSync: bool
    ghost var syncsStarted: nat

    /** Between calls nothing is running, and a sync was started at most once, only by the call
        that completed. */
    ghost predicate Valid()
      reads this
    {
      !isInitialSyncRunning && syncsStarted <= 1 && (syncsStarted == 1 ==> hasCompletedInitialSync)
    }

    constructor ()
      ensures Valid() && !hasCompletedInitialSync && syncsStarted == 0
    {
      isInitialSyncRunning := false;
      hasCompletedInitialSync := false;
      syncsStarted := 0;
    }

    /** `ensureBlogSync` given whether it runs on the server, the last sync time the status
        query reports, and the time. It does nothing while running, after completion, or in a
        browser; otherwise it starts the sync exactly when one is due and, whatever the sync
        reports, marks the initial sync completed. */
    method EnsureBlogSync(isServer: bool, lastSync: Option<int>, now: int) returns (startedSync: bool)
      requires Valid()
      modifies this
      ensures Valid()
      ensures (old(hasCompletedInitialSync) || !isServer) ==>
                !startedSync && hasCompletedInitialSync == old(hasCompletedInitialSync)
                && syncsStarted == old(syncsStarted)
      ensures (!old(hasCompletedInitialSync) && isServer) ==>
                hasCompletedInitialSync && (startedSync <==> ShouldSync(lastSync, now))
      ensures syncsStarted == old(syncsStarted) + (if startedSync then 1 else 0)
    {
      if isInitialSyncRunning || hasCompletedInitialSync {
        return false;
      }
      if !isServer {
        return false;
      }
      isInitialSyncRunning := true;
      startedSync := ShouldSync(lastSync, now);
      if startedSync {
        syncsStarted := syncsStarted + 1;
      }
      hasCompletedInitialSync := true;
      isInitialSyncRunning := false;
    }
  }
}
