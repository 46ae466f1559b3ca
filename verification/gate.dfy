/** `LoginRequiredMiddleware`: a request from a visitor who is not logged in
    is redirected to the home page unless its path starts with one of the
    exempt URLs; every other request goes on to the view. */
module LoginGate {
  import Text

  /** `reverse("home")`: the home view is routed at the empty pattern of the
      root URL configuration, so its URL is the root path. */
  const HomeUrl: string := "/"

  const AdminUrl: string := "/admin/"

  /** The exempt list `__init__` builds: the home URL, and the admin prefix
      when the `DEBUG` setting is on. */
  function ExemptUrls(debug: bool): (urls: seq<string>)
    ensures |urls| == (if debug then 2 else 1) && urls[0] == HomeUrl
    ensures AdminUrl in urls <==> debug
    ensures forall u :: u in urls ==> u == HomeUrl || u == AdminUrl
  {
    [HomeUrl] + (if debug then [AdminUrl] else [])
  }

  /** `any(path.startswith(url) for url in exempt)`, scanning the list in order. */
  function AnyPrefix(exempt: seq<string>, path: string): (b: bool)
    ensures b <==> exists u :: u in exempt && Text.StartsWith(path, u)
  {
    if |exempt| == 0 then false
    else if Text.StartsWith(path, exempt[0]) then true
    else
      assert forall u :: u in exempt ==> u == exempt[0] || u in exempt[1..];
      AnyPrefix(exempt[1..], path)
  }

  /** What the middleware does with a request. */
  datatype Response =
    | Forwarded             // `get_response(request)` is called and its response returned
    | Redirected(to: string) // the redirect, without calling `get_response`

  /** `__call__`. */
  function Gate(exempt: seq<string>, authenticated: bool, path: string): (r: Response)
    ensures authenticated ==> r == Forwarded
    ensures !authenticated && (exists u :: u in exempt && Text.StartsWith(path, u)) ==> r == Forwarded
    ensures !authenticated && (forall u :: u in exempt ==> !Text.StartsWith(path, u)) ==> r == Redirected(HomeUrl)
  {
    if !authenticated && !AnyPrefix(exempt, path) then Redirected(HomeUrl) else Forwarded
  }

  /** Because the home URL is the root path, every path that begins with `/`
      (every path a request can have) is exempt: the middleware lets every
      request through, logged in or not, whatever the `DEBUG` setting. */
  lemma {:induction false} RootExemptsEveryPath(debug: bool, authenticated: bool, path: string)
    requires Text.StartsWith(path, "/")
    ensures Gate(ExemptUrls(debug), authenticated, path) == Forwarded
  {
    assert HomeUrl in ExemptUrls(debug);
  }

  /** A redirect only happens for an anonymous request whose path does not
      start with `/`. */
  lemma RedirectOnlyForRelativePath(debug: bool, authenticated: bool, path: string)
    requires Gate(ExemptUrls(debug), authenticated, path).Redirected?
    ensures !authenticated && (|path| == 0 || path[0] != '/')
  {
  }
}
