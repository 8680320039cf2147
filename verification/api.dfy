/**
 * The HTTP client set-up: the backend base URL, the image-URL joiner, the
 * request interceptor that attaches the stored token, and the response
 * interceptor that forgets the session on a 401.
 */
module Api {
  import opened Common

  const DefaultApiUrl: string := "https://" + "backend-planingmap.onrender.com/api/v1"

  /** `process.env.NEXT_PUBLIC_API_URL || DefaultApiUrl` */
  function ApiUrl(env: Option<string>): (r: string)
    ensures Truthy(env) ==> r == env.value
    ensures !Truthy(env) ==> r == DefaultApiUrl
    ensures r != ""
  {
    OrElse(env, DefaultApiUrl)
  }

  /** `getImageURL(path)` against the base URL `base`. */
  function GetImageURL(base: string, path: Option<string>): (r: Option<string>)
    ensures !Truthy(path) <==> r.None?
  {
    if !Truthy(path) then None
    else if StartsWith(path.value, "http") then path
    else Some(base + (if StartsWith(path.value, "/") then "" else "/") + path.value)
  }

  /** A missing or empty path gives `null`; a path starting with 'http' is
      returned as it is; any other path is appended to the base, with a '/'
      inserted exactly when the path does not already start with one. */
  lemma ImageURLCases(base: string, path: Option<string>)
    ensures !Truthy(path) ==> GetImageURL(base, path).None?
    ensures Truthy(path) && StartsWith(path.value, "http") ==> GetImageURL(base, path) == path
    ensures Truthy(path) && !StartsWith(path.value, "http") && path.value[0] == '/' ==>
      GetImageURL(base, path) == Some(base + path.value)
    ensures Truthy(path) && !StartsWith(path.value, "http") && path.value[0] != '/' ==>
      GetImageURL(base, path) == Some(base + "/" + path.value)
  {
    if Truthy(path) && !StartsWith(path.value, "http") {
      assert StartsWith(path.value, "/") <==> path.value[0] == '/';
      assert base + "" == base;
    }
  }

  /** The URL always ends with the given path. */
  lemma ImageURLEndsWithPath(base: string, path: string)
    requires path != ""
    ensures var r := GetImageURL(base, Some(path)).value;
      |r| >= |path| && r[|r| - |path|..] == path
  {
  }

  /** With a base that itself starts with 'http' (as the default does),
      joining an already joined URL changes nothing. */
  lemma ImageURLIdempotent(base: string, path: Option<string>)
    requires StartsWith(base, "http")
    ensures GetImageURL(base, GetImageURL(base, path)) == GetImageURL(base, path)
  {
    if Truthy(path) && !StartsWith(path.value, "http") {
      var r := GetImageURL(base, path).value;
      assert r[..4] == base[..4];
    }
  }

  /** The default base starts with 'http', so it is subject to the lemma above. */
  lemma DefaultApiUrlIsHttp()
    ensures StartsWith(DefaultApiUrl, "http")
  {
    assert DefaultApiUrl[..4] == "https://"[..4];
  }

  // ---------------------------------------------------------------------------
  // Interceptors
  // ---------------------------------------------------------------------------

  /** The headers after the request interceptor: `Authorization` is set to
      'Bearer ' + token when a non-empty token is stored. */
  function WithAuthorization(headers: map<string, string>, token: Option<string>): (r: map<string, string>)
    ensures Truthy(token) ==> "Authorization" in r && r["Authorization"] == "Bearer " + token.value
    ensures !Truthy(token) ==> r == headers
    ensures forall h :: h in headers && h != "Authorization" ==> h in r && r[h] == headers[h]
    ensures r.Keys == headers.Keys + (if Truthy(token) then {"Authorization"} else {})
  {
    if Truthy(token) then headers["Authorization" := "Bearer " + token.value] else headers
  }

  /** Storage after the response interceptor sees an error with `status`
      (`None` when the error has no response). */
  function AfterResponseError(entries: map<string, string>, status: Option<int>): (r: map<string, string>)
    ensures status == Some(401) ==> "token" !in r && "user" !in r
    ensures status == Some(401) ==> r.Keys == entries.Keys - {"token", "user"}
    ensures status != Some(401) ==> r == entries
    ensures forall k :: k in r ==> k in entries && r[k] == entries[k]
  {
    if status == Some(401) then entries - {"token", "user"} else entries
  }

  /** Attaching the token twice is the same as attaching it once. */
  lemma WithAuthorizationIdempotent(headers: map<string, string>, token: Option<string>)
    ensures WithAuthorization(WithAuthorization(headers, token), token) == WithAuthorization(headers, token)
  {
  }

  /** `localStorage` */
  class BrowserStorage {
    var entries: map<string, string>

    constructor(entries: map<string, string>)
      ensures this.entries == entries
    {
      this.entries := entries;
    }

    /** `localStorage.getItem(key)` */
    function GetItem(key: string): Option<string>
      reads this
    {
      if key in entries then Some(entries[key]) else None
    }

    /** The response interceptor's error branch: on a 401 it removes 'token'
        and 'user' and asks for a redirect to the login page. */
    method OnResponseError(status: Option<int>) returns (redirect: Option<string>)
      modifies this
      ensures entries == AfterResponseError(old(entries), status)
      ensures redirect == (if status == Some(401) then Some("/Connexion") else None)
    {
      redirect := None;
      if status == Some(401) {
        entries := entries - {"token"};
        entries := entries - {"user"};
        redirect := Some("/Connexion");
      }
    }
  }

  /** The `config` object an axios request interceptor receives. */
  class RequestConfig {
    var headers: map<string, string>

    constructor()
      ensures headers == map["Content-Type" := "application/json"]
    {
      headers := map["Content-Type" := "application/json"];
    }

    /** The request interceptor: reads the stored token and, when there is
        one, sets `config.headers.Authorization`. */
    method AttachToken(storage: BrowserStorage)
      modifies this
      ensures headers == WithAuthorization(old(headers), old(storage.GetItem("token")))
    {
      var token := storage.GetItem("token");
      if token.Some? && token.value != "" {
        headers := headers["Authorization" := "Bearer " + token.value];
      }
    }
  }
}
