/** The two pure helpers of the GitHub service (src/services/github.ts):
    listing the layout files of a user's Gists, and turning a failure into
    the message shown to the user. The HTTP calls and the OAuth flow are
    not modelled. */
module GitHub {
  import opened Wrappers
  import opened Text
  import AuthStore

  /** A Gist as the listing returns it; `files` are its file names in key order. */
  datatype Gist = Gist(id: string, files: seq<string>, description: Option<string>, updatedAt: string)

  /** An entry of the saved-layout list (`SavedLayoutItem`). */
  datatype SavedLayoutItem = SavedLayoutItem(
    id: string,
    filename: string,
    description: string,
    updatedAt: string,
    source: AuthStore.StorageSource,
    gistFileKey: Option<string>)

  const LAYOUT_SUFFIX: string := ".kls.json"

  /** A file holds a layout when its name carries the layout suffix. */
  predicate IsLayoutFile(name: string) {
    EndsWith(name, LAYOUT_SUFFIX)
  }

  /** The list entry for one layout file of a Gist; a missing or empty
      description becomes the empty string. */
  function ItemOf(g: Gist, file: string): (it: SavedLayoutItem)
    ensures it.id == g.id && it.filename == file && it.gistFileKey == Some(file)
    ensures it.source == AuthStore.Gist && it.updatedAt == g.updatedAt
    ensures it.description == g.description.GetOr("")
  {
    SavedLayoutItem(g.id, file, g.description.GetOr(""), g.updatedAt, AuthStore.Gist, Some(file))
  }

  /** The layout files among `files` of `g`, in order, as list entries. */
  function LayoutItems(g: Gist, files: seq<string>): (r: seq<SavedLayoutItem>)
    ensures |r| <= |files|
    ensures forall f :: f in files && IsLayoutFile(f) ==> ItemOf(g, f) in r
    ensures forall it :: it in r ==> exists f :: f in files && IsLayoutFile(f) && it == ItemOf(g, f)
  {
    if files == [] then []
    else
      var rest := LayoutItems(g, files[1..]);
      if IsLayoutFile(files[0]) then [ItemOf(g, files[0])] + rest else rest
  }

  /** filterKLSGists: every layout file of every Gist, Gist by Gist and file by file. */
  function FilterKlsGists(gists: seq<Gist>): (r: seq<SavedLayoutItem>)
    ensures forall g, f :: g in gists && f in g.files && IsLayoutFile(f) ==> ItemOf(g, f) in r
    ensures forall it :: it in r ==>
      exists g, f :: g in gists && f in g.files && IsLayoutFile(f) && it == ItemOf(g, f)
  {
    if gists == [] then []
    else
      var r := LayoutItems(gists[0], gists[0].files) + FilterKlsGists(gists[1..]);
      assert forall g :: g in gists[1..] ==> g in gists;
      assert forall g :: g in gists ==> g == gists[0] || g in gists[1..];
      r
  }

  /** Every entry of the list is a Gist layout file whose key is its name. */
  lemma ItemsAreGistLayouts(gists: seq<Gist>)
    ensures forall it :: it in FilterKlsGists(gists) ==>
      it.source == AuthStore.Gist && IsLayoutFile(it.filename) && it.gistFileKey == Some(it.filename)
  {
    forall it | it in FilterKlsGists(gists)
      ensures it.source == AuthStore.Gist && IsLayoutFile(it.filename) && it.gistFileKey == Some(it.filename)
    {
      var g, f :| g in gists && f in g.files && IsLayoutFile(f) && it == ItemOf(g, f);
    }
  }

  /** The listing keeps the order of the Gists: listing two batches one after
      the other is listing them together. */
  lemma {:induction false} FilterKlsGistsAppend(a: seq<Gist>, b: seq<Gist>)
    ensures FilterKlsGists(a + b) == FilterKlsGists(a) + FilterKlsGists(b)
  {
    if a == [] {
      assert a + b == b;
    } else {
      assert (a + b)[1..] == a[1..] + b;
      FilterKlsGistsAppend(a[1..], b);
    }
  }

  /** Number of layout files among `files`. */
  function CountLayoutFiles(files: seq<string>): nat {
    if files == [] then 0 else (if IsLayoutFile(files[0]) then 1 else 0) + CountLayoutFiles(files[1..])
  }

  /** One entry per layout file, nothing else: a Gist's entries number its layout files. */
  lemma {:induction false} LayoutItemsCount(g: Gist, files: seq<string>)
    ensures |LayoutItems(g, files)| == CountLayoutFiles(files)
  {
    if files != [] {
      LayoutItemsCount(g, files[1..]);
    }
  }

  /** A failure as the service sees it: an API error with its HTTP status,
      any other `Error`, or a thrown value that is not an `Error` at all. */
  datatype Failure = ApiError(status: int, message: string) | PlainError(message: string) | NotAnError

  const MSG_UNAUTHORIZED: string := "トークンが無効です。正しいトークンを入力してください。"
  const MSG_FORBIDDEN: string := "アクセスが拒否されました。トークンの権限を確認してください。"
  const MSG_NOT_FOUND: string := "リソースが見つかりません。"
  const MSG_UNPROCESSABLE: string := "無効なデータです。"
  const MSG_API_PREFIX: string := "APIエラーが発生しました: "
  const MSG_NETWORK: string := "ネットワークエラーが発生しました。接続を確認してください。"
  const MSG_UNEXPECTED: string := "予期しないエラーが発生しました。"
  const FETCH_FAILURE: string := "Failed to fetch"

  /** The statuses that have a message of their own. */
  predicate KnownStatus(status: int) {
    status == 401 || status == 403 || status == 404 || status == 422
  }

  /** getGitHubErrorMessage. */
  function GitHubErrorMessage(e: Failure): (r: string)
    ensures e.ApiError? && e.status == 401 ==> r == MSG_UNAUTHORIZED
    ensures e.ApiError? && e.status == 403 ==> r == MSG_FORBIDDEN
    ensures e.ApiError? && e.status == 404 ==> r == MSG_NOT_FOUND
    ensures e.ApiError? && e.status == 422 ==> r == MSG_UNPROCESSABLE
    ensures e.ApiError? && !KnownStatus(e.status) ==> r == MSG_API_PREFIX + e.message
    ensures e.PlainError? && Contains(e.message, FETCH_FAILURE) ==> r == MSG_NETWORK
    ensures e.PlainError? && !Contains(e.message, FETCH_FAILURE) ==> r == e.message
    ensures e.NotAnError? ==> r == MSG_UNEXPECTED
  {
    match e
    case ApiError(status, message) =>
      if status == 401 then MSG_UNAUTHORIZED
      else if status == 403 then MSG_FORBIDDEN
      else if status == 404 then MSG_NOT_FOUND
      else if status == 422 then MSG_UNPROCESSABLE
      else MSG_API_PREFIX + message
    case PlainError(message) =>
      if Contains(message, FETCH_FAILURE) then MSG_NETWORK else message
    case NotAnError => MSG_UNEXPECTED
  }

  /** The message of an API error tells the known statuses apart: it names
      the status exactly, and no other API error reads the same. */
  lemma ApiMessageDeterminesStatus(s1: int, m1: string, s2: int, m2: string)
    requires KnownStatus(s1)
    requires GitHubErrorMessage(ApiError(s1, m1)) == GitHubErrorMessage(ApiError(s2, m2))
    ensures s2 == s1
  {
    var r := GitHubErrorMessage(ApiError(s1, m1));
    assert r[0] != MSG_API_PREFIX[0];
  }

  /** A plain error whose message mentions a failed fetch always reads as
      the network message, whatever else it says. */
  lemma NetworkFailureMessage(before: string, after: string)
    ensures GitHubErrorMessage(PlainError(before + FETCH_FAILURE + after)) == MSG_NETWORK
  {
    var s := before + FETCH_FAILURE + after;
    assert s[|before|..|before| + |FETCH_FAILURE|] == FETCH_FAILURE;
    assert OccursAt(s, FETCH_FAILURE, |before|);
  }
}
