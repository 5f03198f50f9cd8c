/**
 * The folder page's navigation: a breadcrumb of the folders entered from the
 * root and the id of the folder being viewed (None at the root). Entering a
 * folder pushes it, Back pops one level, Root clears the trail, and a crumb
 * cuts the trail back to that folder. The listings the page requests carry the
 * current id, or nothing at the root.
 */
module FolderNav {
  import opened Common
  import opened Numbers
  import opened Schema
  import Routes

  /** The page state the handlers replace: trail and current folder. */
  datatype NavState = NavState(breadcrumb: seq<Folder>, current: Option<int>)

  /** Current is None iff the trail is empty, and otherwise the id of the trail's last folder. */
  predicate Consistent(s: NavState) {
    && (s.current.None? <==> s.breadcrumb == [])
    && (s.breadcrumb != [] ==> s.current == Some(s.breadcrumb[|s.breadcrumb| - 1].id))
  }

  const Start := NavState([], None)

  /** navigateToFolder: push the folder and view it. */
  function Enter(s: NavState, f: Folder): (r: NavState)
    ensures Consistent(r)
    ensures |r.breadcrumb| == |s.breadcrumb| + 1 && r.breadcrumb[..|s.breadcrumb|] == s.breadcrumb
    ensures r.breadcrumb[|s.breadcrumb|] == f
    ensures r.current == Some(f.id)
  {
    NavState(s.breadcrumb + [f], Some(f.id))
  }

  /** navigateBack: nothing at the root; otherwise drop the last folder and view the one before, or the root. */
  function Back(s: NavState): (r: NavState)
    ensures s.breadcrumb == [] ==> r == s
    ensures s.breadcrumb != [] ==>
      |r.breadcrumb| == |s.breadcrumb| - 1 && r.breadcrumb == s.breadcrumb[..|r.breadcrumb|]
    ensures Consistent(s) ==> Consistent(r)
    ensures s.breadcrumb != [] ==> Consistent(r)
  {
    if s.breadcrumb == [] then s
    else
      var trail := s.breadcrumb[..|s.breadcrumb| - 1];
      NavState(trail, if trail == [] then None else Some(trail[|trail| - 1].id))
  }

  /** navigateToRoot. */
  function Home(s: NavState): (r: NavState)
    ensures Consistent(r) && r.breadcrumb == [] && r.current.None?
  {
    Start
  }

  /** A click on the crumb at index i: keep the trail up to and including it and view it. */
  function Crumb(s: NavState, i: nat): (r: NavState)
    requires i < |s.breadcrumb|
    ensures Consistent(r)
    ensures r.breadcrumb == s.breadcrumb[..i + 1]
    ensures r.current == Some(s.breadcrumb[i].id)
  {
    NavState(s.breadcrumb[..i + 1], Some(s.breadcrumb[i].id))
  }

  /** Back after entering a folder returns to where the page was. */
  lemma BackUndoesEnter(s: NavState, f: Folder)
    requires Consistent(s)
    ensures Back(Enter(s, f)) == s
  {
    assert (s.breadcrumb + [f])[..|s.breadcrumb|] == s.breadcrumb;
  }

  /** A click on the last crumb changes nothing. */
  lemma LastCrumbStays(s: NavState)
    requires Consistent(s) && s.breadcrumb != []
    ensures Crumb(s, |s.breadcrumb| - 1) == s
  {
    assert s.breadcrumb[..|s.breadcrumb|] == s.breadcrumb;
  }

  /** Back pressed n times. */
  function BackTimes(s: NavState, n: nat): NavState
    decreases n
  {
    if n == 0 then s else BackTimes(Back(s), n - 1)
  }

  /** Pressing Back once per folder on the trail reaches the root. */
  lemma {:induction false} BackReachesRoot(s: NavState)
    requires Consistent(s)
    ensures BackTimes(s, |s.breadcrumb|) == Start
    decreases |s.breadcrumb|
  {
    if s.breadcrumb != [] {
      BackReachesRoot(Back(s));
    }
  }

  /** Pressing Back n times from the state after entering n folders comes back. */
  lemma {:induction false} BackUndoesEntering(s: NavState, path: seq<Folder>)
    requires Consistent(s)
    ensures BackTimes(EnterAll(s, path), |path|) == s
    decreases |path|
  {
    if path != [] {
      var last := path[|path| - 1];
      var front := path[..|path| - 1];
      assert EnterAll(s, path) == Enter(EnterAll(s, front), last);
      BackUndoesEnter(EnterAll(s, front), last);
      BackTimesLast(EnterAll(s, path), |path| - 1);
      BackUndoesEntering(s, front);
    }
  }

  /** Entering each folder of path in turn. */
  function EnterAll(s: NavState, path: seq<Folder>): (r: NavState)
    ensures Consistent(s) ==> Consistent(r)
    ensures |r.breadcrumb| == |s.breadcrumb| + |path|
  {
    if path == [] then s else Enter(EnterAll(s, path[..|path| - 1]), path[|path| - 1])
  }

  lemma {:induction false} BackTimesLast(s: NavState, n: nat)
    ensures BackTimes(s, n + 1) == BackTimes(Back(s), n)
  {
  }

  /** `${currentFolderId || ''}`: the listing parameter the page sends. */
  function FolderQuery(current: Option<int>): (r: string)
    ensures r == "" <==> !TruthyNumber(current)
  {
    if TruthyNumber(current) then IntToString(current.value) else ""
  }

  /** The listings requested are those of the current folder, and of the top level at the root. */
  lemma QueryListsCurrent(current: Option<int>)
    requires OptFitsInt32(current)
    ensures Routes.ListingOf(Some(FolderQuery(current))) ==
      if TruthyNumber(current) then Routes.Within(current.value) else Routes.TopLevel
  {
    if TruthyNumber(current) {
      Routes.ListingEncodings(current.value);
    }
  }

  /** The Back button is shown iff current is truthy: the trail is not empty and its last id is not 0. */
  lemma BackShownIffInside(s: NavState)
    requires Consistent(s)
    ensures TruthyNumber(s.current) <==> s.breadcrumb != [] && s.breadcrumb[|s.breadcrumb| - 1].id != 0
  {
  }

  /** The page's state: trail and current folder, replaced by each handler. */
  class FolderBrowser {
    var breadcrumb: seq<Folder>
    var currentFolderId: Option<int>

    function State(): NavState
      reads this
    {
      NavState(breadcrumb, currentFolderId)
    }

    predicate Valid()
      reads this
    {
      Consistent(State())
    }

    constructor ()
      ensures State() == Start && Valid()
    {
      breadcrumb := [];
      currentFolderId := None;
    }

    method NavigateToFolder(f: Folder)
      modifies this
      ensures State() == Enter(old(State()), f) && Valid()
    {
      breadcrumb := breadcrumb + [f];
      currentFolderId := Some(f.id);
    }

    method NavigateBack()
      modifies this
      ensures State() == Back(old(State()))
      ensures old(Valid()) ==> Valid()
    {
      if |breadcrumb| == 0 {
        return;
      }
      var trail := breadcrumb;
      trail := trail[..|trail| - 1];
      breadcrumb := trail;
      if |trail| == 0 {
        currentFolderId := None;
      } else {
        currentFolderId := Some(trail[|trail| - 1].id);
      }
    }

    method NavigateToRoot()
      modifies this
      ensures State() == Start && Valid()
    {
      breadcrumb := [];
      currentFolderId := None;
    }

    method ClickCrumb(index: nat)
      requires index < |breadcrumb|
      modifies this
      ensures State() == Crumb(old(State()), index) && Valid()
    {
      var folder := breadcrumb[index];
      breadcrumb := breadcrumb[..index + 1];
      currentFolderId := Some(folder.id);
    }

    /** `{currentFolderId && ...}`: whether the Back button is rendered. */
    function BackShown(): (r: bool)
      reads this
      ensures Valid() ==> (r <==> breadcrumb != [] && breadcrumb[|breadcrumb| - 1].id != 0)
    {
      TruthyNumber(currentFolderId)
    }
  }
}
