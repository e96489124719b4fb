/**
 * The navigation controller: which of the three views is shown, the view the
 * app starts in (read from the address), and the transitions between views,
 * which also keep the address bar's path for the top two levels.
 */
module App {
  import opened Wrappers
  import Storage
  import Uri

  /** A round id arrives either as a string or as a number. */
  datatype RoundId = RoundKey(key: string) | RoundNumber(number: int)

  datatype View =
    | Search
    | Competition(competitionId: string, competitionName: string)
    | Round(competitionId: string, competitionName: string, roundId: RoundId, roundName: string, eventName: string)

  /** `pathname.replace(/\/+$/, '')`: drops every trailing slash. */
  function StripTrailingSlashes(p: string): string {
    if p != [] && p[|p| - 1] == '/' then StripTrailingSlashes(p[..|p| - 1]) else p
  }

  /** The path with its trailing slashes and then at most one leading slash removed. */
  function Slug(pathname: string): string {
    var p := StripTrailingSlashes(pathname);
    if p != [] && p[0] == '/' then p[1..] else p
  }

  /**
   * The view the app starts in: the search view for an empty slug, otherwise
   * the decoded slug as a competition id with its cached name (or the empty
   * name). `None` where decoding the slug throws.
   */
  function InitialView(pathname: string, stored: Storage.Backing): Option<View> {
    var slug := Slug(pathname);
    if slug == [] then Some(Search)
    else
      match Uri.Decode(slug)
      case Some(id) => Some(Competition(id, Storage.Lookup(stored, id).GetOr("")))
      case None => None
  }

  /** `StripTrailingSlashes` keeps a prefix, drops only slashes, and leaves no slash at the end. */
  lemma {:induction false} StripTrailingSlashesSpec(p: string)
    ensures var r := StripTrailingSlashes(p);
      && |r| <= |p| && r == p[..|r|]
      && (forall i :: |r| <= i < |p| ==> p[i] == '/')
      && (r == [] || r[|r| - 1] != '/')
  {
    if p != [] && p[|p| - 1] == '/' {
      StripTrailingSlashesSpec(p[..|p| - 1]);
    }
  }

  lemma {:induction false} StripSlashesOnly(p: string)
    requires forall i :: 0 <= i < |p| ==> p[i] == '/'
    ensures StripTrailingSlashes(p) == []
  {
    if p != [] {
      StripSlashesOnly(p[..|p| - 1]);
    }
  }

  /** A path of slashes only (the root path `/` among them) starts the app in the search view. */
  lemma SlashesOnlyIsSearch(pathname: string, stored: Storage.Backing)
    requires forall i :: 0 <= i < |pathname| ==> pathname[i] == '/'
    ensures InitialView(pathname, stored) == Some(Search)
  {
    StripSlashesOnly(pathname);
  }

  /** Extra slashes at the end of the address do not change the starting view. */
  lemma TrailingSlashIgnored(pathname: string, stored: Storage.Backing)
    ensures InitialView(pathname + "/", stored) == InitialView(pathname, stored)
  {
    assert (pathname + "/")[..|pathname|] == pathname;
  }

  /** A non-empty slug that decodes starts the app in that competition's view, with the cached name or `''`. */
  lemma NonEmptySlugIsCompetition(pathname: string, stored: Storage.Backing, id: string)
    requires Slug(pathname) != [] && Uri.Decode(Slug(pathname)) == Some(id)
    ensures id != []
    ensures Storage.Lookup(stored, id).Some? ==>
      InitialView(pathname, stored) == Some(Competition(id, Storage.Lookup(stored, id).value))
    ensures Storage.Lookup(stored, id).None? ==>
      InitialView(pathname, stored) == Some(Competition(id, ""))
  {
  }

  /** The app never starts in the round view. */
  lemma NeverStartsInRound(pathname: string, stored: Storage.Backing)
    ensures InitialView(pathname, stored).Some? ==> !InitialView(pathname, stored).value.Round?
  {
  }

  /** The path that `goToCompetition(id, ...)` pushes: `/` followed by the encoded id. */
  function CompetitionPath(id: string): string {
    "/" + Uri.Encode(id)
  }

  lemma SlugOfCompetitionPath(id: string)
    ensures Slug(CompetitionPath(id)) == Uri.Encode(id)
  {
    var e := Uri.Encode(id);
    var p := CompetitionPath(id);
    if e == [] {
      assert p == "/" && p[..0] == [];
      assert StripTrailingSlashes(p) == StripTrailingSlashes(p[..0]) == [];
    } else {
      assert p[|p| - 1] == e[|e| - 1];
      assert p[1..] == e;
    }
  }

  /**
   * Reloading at the path `goToCompetition(id, ...)` pushed starts the app in
   * that competition's view again, for any non-empty id; for the empty id the
   * path is `/` and the app starts in the search view.
   */
  lemma ReloadAtCompetitionPath(id: string, stored: Storage.Backing)
    ensures id != [] ==>
      InitialView(CompetitionPath(id), stored) == Some(Competition(id, Storage.Lookup(stored, id).GetOr("")))
    ensures id == [] ==> InitialView(CompetitionPath(id), stored) == Some(Search)
  {
    SlugOfCompetitionPath(id);
    Uri.DecodeEncode(id);
  }

  /**
   * The address reflects the view: the search view sits at a path with an
   * empty slug, and a competition or round view at a path whose slug decodes
   * to its competition id (when that id is not empty).
   */
  predicate AddressMatches(v: View, path: string) {
    match v
    case Search => Slug(path) == []
    case Competition(id, _) => id != [] ==> Uri.Decode(Slug(path)) == Some(id)
    case Round(id, _, _, _, _) => id != [] ==> Uri.Decode(Slug(path)) == Some(id)
  }

  /** The view the app starts in matches the address it started at. */
  lemma InitialViewMatchesAddress(pathname: string, stored: Storage.Backing)
    ensures InitialView(pathname, stored).Some? ==> AddressMatches(InitialView(pathname, stored).value, pathname)
  {
  }

  class Navigator {
    var view: View
    var path: string

    /** `useState(initialView)` at the current address; a slug that does not decode throws in the source. */
    constructor (pathname: string, store: Storage.NameStore)
      requires InitialView(pathname, store.backing).Some?
      ensures view == InitialView(pathname, store.backing).value && path == pathname
      ensures AddressMatches(view, path)
    {
      view := InitialView(pathname, store.backing).value;
      path := pathname;
      InitialViewMatchesAddress(pathname, store.backing);
    }

    /** `goToSearch()`: the search view at the root path. */
    method GoToSearch()
      modifies this
      ensures view == Search && path == "/"
      ensures AddressMatches(view, path)
    {
      view := Search;
      path := "/";
      assert path[..0] == [];
    }

    /** `goToCompetition(id, name)`: that competition's view at `/` followed by the encoded id. */
    method GoToCompetition(competitionId: string, competitionName: string)
      modifies this
      ensures view == Competition(competitionId, competitionName)
      ensures path == CompetitionPath(competitionId)
      ensures AddressMatches(view, path)
    {
      view := Competition(competitionId, competitionName);
      path := CompetitionPath(competitionId);
      SlugOfCompetitionPath(competitionId);
      Uri.DecodeEncode(competitionId);
    }

    /** `goToRound(args)`: the round view with all five fields; the address stays as it is. */
    method GoToRound(competitionId: string, competitionName: string, roundId: RoundId,
                     roundName: string, eventName: string)
      modifies this
      ensures view == Round(competitionId, competitionName, roundId, roundName, eventName)
      ensures path == old(path)
    {
      view := Round(competitionId, competitionName, roundId, roundName, eventName);
    }

    /** The search view's `onSelect`: open the chosen competition. */
    method SelectCompetition(competitionId: string, competitionName: string)
      requires view.Search?
      modifies this
      ensures view == Competition(competitionId, competitionName)
      ensures path == CompetitionPath(competitionId)
      ensures AddressMatches(view, path)
    {
      GoToCompetition(competitionId, competitionName);
    }

    /** The detail view's `onSelectRound`: the round view, carrying the competition's id and name over. */
    method SelectRound(roundId: RoundId, roundName: string, eventName: string)
      requires view.Competition?
      modifies this
      ensures view == Round(old(view).competitionId, old(view).competitionName, roundId, roundName, eventName)
      ensures path == old(path)
      ensures old(AddressMatches(view, path)) ==> AddressMatches(view, path)
    {
      GoToRound(view.competitionId, view.competitionName, roundId, roundName, eventName);
    }

    /** The detail view's `onBack`: back to the search view. */
    method BackFromCompetition()
      requires view.Competition?
      modifies this
      ensures view == Search && path == "/"
      ensures AddressMatches(view, path)
    {
      GoToSearch();
    }

    /** The summary view's `onBack`: back to the competition with the same id and name. */
    method BackFromRound()
      requires view.Round?
      modifies this
      ensures view == Competition(old(view).competitionId, old(view).competitionName)
      ensures path == CompetitionPath(old(view).competitionId)
      ensures AddressMatches(view, path)
    {
      GoToCompetition(view.competitionId, view.competitionName);
    }

    /** The header's competition link, shown outside the search view. */
    method HeaderCompetition()
      requires !view.Search?
      modifies this
      ensures view == Competition(old(view).competitionId, old(view).competitionName)
      ensures path == CompetitionPath(old(view).competitionId)
      ensures AddressMatches(view, path)
    {
      GoToCompetition(view.competitionId, view.competitionName);
    }
  }

  /** Opening a round and going back returns to the same competition view. */
  method RoundAndBack(nav: Navigator, roundId: RoundId, roundName: string, eventName: string)
    requires nav.view.Competition?
    modifies nav
    ensures nav.view == old(nav.view)
    ensures nav.path == CompetitionPath(old(nav.view).competitionId)
    ensures AddressMatches(nav.view, nav.path)
  {
    nav.SelectRound(roundId, roundName, eventName);
    nav.BackFromRound();
  }
}
