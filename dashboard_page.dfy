/**
 * The dashboard: the average duration card, which prints durations as
 * "m:ss" with unbounded minutes, and the listings it requests for the folder
 * it shows.
 */
module DashboardPage {
  import opened Common
  import opened Clock
  import FolderNav
  import Routes

  /** The average-duration card: `stats?.avgDuration ? formatDuration(...) : '0:00'`. */
  function AverageCard(avgDuration: Option<int>): (r: string)
    ensures !TruthyNumber(avgDuration) ==> r == "0:00"
    ensures TruthyNumber(avgDuration) ==> r == MinutesSeconds(avgDuration.value)
  {
    if TruthyNumber(avgDuration) then MinutesSeconds(avgDuration.value) else "0:00"
  }

  /** The card reads as the average it shows, and as no time at all when there is none. */
  lemma AverageCardReads(avgDuration: Option<int>)
    requires avgDuration.Some? ==> avgDuration.value >= 0
    ensures ClockValue(AverageCard(avgDuration)) == Some(avgDuration.GetOr(0))
  {
    if !TruthyNumber(avgDuration) {
      ZeroClock();
    }
  }

  /**
   * The dashboard's listings go to `?folderId=` and `?parentId=` with the
   * folder it shows; at the root the parameter is empty and both ask for the
   * top level.
   */
  lemma RootListings()
    ensures Routes.ListingOf(Some(FolderNav.FolderQuery(None))) == Routes.TopLevel
  {
    FolderNav.QueryListsCurrent(None);
  }
}
