/** The authentication store (src/stores/auth.ts): who is signed in to
    GitHub, where the open layout came from, and where a save goes.
    Only the in-memory state is modelled; the browser storage it mirrors
    the credentials into is not. */
module AuthStore {
  import opened Wrappers

  /** Where a layout lives (`StorageSource` of src/types/github.ts). */
  datatype StorageSource = New | Local | Gist

  /** Where a save is written; a fresh layout has no source but still a destination. */
  datatype SaveDestination = ToLocal | ToGist

  datatype GitHubAuth = GitHubAuth(token: string, username: string, avatarUrl: Option<string>)

  datatype Auth = Auth(
    githubAuth: Option<GitHubAuth>,
    layoutSource: StorageSource,
    layoutGistId: Option<string>,
    layoutGistFileKey: Option<string>,
    saveDestination: SaveDestination)

  /** The state a session starts in. */
  const Initial: Auth := Auth(None, New, None, None, ToLocal)

  /** The destination that mirrors a source, when there is one. */
  function DestinationOf(source: StorageSource): (r: Option<SaveDestination>)
    ensures r.None? <==> source == New
    ensures r == Some(ToLocal) <==> source == Local
    ensures r == Some(ToGist) <==> source == Gist
  {
    match source
    case New => None
    case Local => Some(ToLocal)
    case Gist => Some(ToGist)
  }

  /** `s || null` on an optional string: the empty string counts as missing. */
  function Truthy(s: Option<string>): (r: Option<string>)
    ensures r.Some? <==> s.Some? && s.value != ""
    ensures r.Some? ==> r == s
  {
    if s.Some? && s.value != "" then s else None
  }

  predicate IsLoggedIn(a: Auth) {
    a.githubAuth.Some?
  }

  /** The signed-in user's name; an empty name reads as nobody. */
  function Username(a: Auth): (r: Option<string>)
    ensures r.Some? ==> IsLoggedIn(a) && r.value == a.githubAuth.value.username && r.value != ""
    ensures IsLoggedIn(a) && a.githubAuth.value.username != "" ==> r.Some?
  {
    if a.githubAuth.Some? && a.githubAuth.value.username != "" then Some(a.githubAuth.value.username) else None
  }

  /** Replaces the credentials and nothing else. */
  function SetGitHubAuth(a: Auth, auth: Option<GitHubAuth>): (r: Auth)
    ensures IsLoggedIn(r) <==> auth.Some?
    ensures r.githubAuth == auth
    ensures r.(githubAuth := a.githubAuth) == a
  {
    a.(githubAuth := auth)
  }

  /** Records where the open layout came from; an empty id counts as none.
      A 'local' or 'gist' source also becomes the save destination. */
  function SetLayoutSource(a: Auth, source: StorageSource, gistId: Option<string>, fileKey: Option<string>): (r: Auth)
    ensures r.layoutSource == source
    ensures r.layoutGistId == Truthy(gistId) && r.layoutGistFileKey == Truthy(fileKey)
    ensures source == New ==> r.saveDestination == a.saveDestination
    ensures source == Local ==> r.saveDestination == ToLocal
    ensures source == Gist ==> r.saveDestination == ToGist
    ensures r.githubAuth == a.githubAuth
  {
    var dest := match DestinationOf(source) case Some(d) => d case None => a.saveDestination;
    a.(layoutSource := source, layoutGistId := Truthy(gistId), layoutGistFileKey := Truthy(fileKey), saveDestination := dest)
  }

  /** Forgets the source: the layout is now a local one. */
  function ClearLayoutSource(a: Auth): (r: Auth)
    ensures r.layoutSource == Local && r.saveDestination == ToLocal
    ensures r.layoutGistId.None? && r.layoutGistFileKey.None?
    ensures r.githubAuth == a.githubAuth
  {
    a.(layoutSource := Local, layoutGistId := None, layoutGistFileKey := None, saveDestination := ToLocal)
  }

  function SetSaveDestination(a: Auth, dest: SaveDestination): (r: Auth)
    ensures r.saveDestination == dest
    ensures r.(saveDestination := a.saveDestination) == a
  {
    a.(saveDestination := dest)
  }

  /** Signs out. A layout opened from a Gist is re-labelled local, and saves go local. */
  function LogoutGitHub(a: Auth): (r: Auth)
    ensures !IsLoggedIn(r)
    ensures r.saveDestination == ToLocal
    ensures a.layoutSource == Gist ==> r.layoutSource == Local && r.layoutGistId.None? && r.layoutGistFileKey.None?
    ensures a.layoutSource != Gist ==>
      r.layoutSource == a.layoutSource && r.layoutGistId == a.layoutGistId && r.layoutGistFileKey == a.layoutGistFileKey
  {
    var signedOut := SetGitHubAuth(a, None);
    var relabelled := if a.layoutSource == Gist then ClearLayoutSource(signedOut) else signedOut;
    relabelled.(saveDestination := ToLocal)
  }

  /** Starts a fresh layout: no source and no ids; the destination stays. */
  function ResetToNew(a: Auth): (r: Auth)
    ensures r.layoutSource == New && r.layoutGistId.None? && r.layoutGistFileKey.None?
    ensures r.saveDestination == a.saveDestination && r.githubAuth == a.githubAuth
  {
    a.(layoutSource := New, layoutGistId := None, layoutGistFileKey := None)
  }

  /** Whatever state a session reaches, after signing out no state refers
      to a Gist: the source is not 'gist' and saves go local. Signing out twice
      is signing out once. */
  lemma LogoutLeavesNoGist(a: Auth)
    ensures LogoutGitHub(a).layoutSource != Gist
    ensures LogoutGitHub(a).saveDestination == ToLocal
    ensures LogoutGitHub(LogoutGitHub(a)) == LogoutGitHub(a)
  {
  }

  /** Opening a layout from a source and then starting a new one leaves the
      same source fields as starting a new one directly, and keeps the
      destination the source chose. */
  lemma ResetAfterSetSource(a: Auth, source: StorageSource, gistId: Option<string>, fileKey: Option<string>)
    ensures var r := ResetToNew(SetLayoutSource(a, source, gistId, fileKey));
      r == ResetToNew(a).(saveDestination := SetLayoutSource(a, source, gistId, fileKey).saveDestination)
  {
  }

  /** Clearing the source agrees with recording a local source without ids. */
  lemma ClearIsLocalSource(a: Auth)
    ensures ClearLayoutSource(a) == SetLayoutSource(a, Local, None, None)
  {
  }

  /** The initial state is signed out with a fresh layout saved locally, the
      state `ResetToNew` and `LogoutGitHub` lead back to from it. */
  lemma InitialState()
    ensures !IsLoggedIn(Initial) && Initial.layoutSource == New && Initial.saveDestination == ToLocal
    ensures ResetToNew(Initial) == Initial && LogoutGitHub(Initial) == Initial
  {
  }
}
