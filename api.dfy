/** frontend/src/services/api.js: the base URL every request goes to. The
    build-time `VITE_API_URL` (absent, or a string) falls back to the local
    backend when absent or empty; one trailing slash is cut and `/api` is
    appended unless the URL already ends with it. */
module Api {
  import opened Wrappers
  import opened Text

  const DefaultUrl: string := "http://localhost:8080/api"

  /** `VITE_API_URL || 'http://localhost:8080/api'`: an absent or empty value
      is falsy and gives the default. */
  function Configured(env: Option<string>): (r: string)
    ensures env.None? || env.value == "" ==> r == DefaultUrl
    ensures env.Some? && env.value != "" ==> r == env.value
  {
    if env.Some? && env.value != "" then env.value else DefaultUrl
  }

  /** The two conditionals applied to `url`: everything before its last
      character is kept, and at most four characters are added. */
  function Normalize(url: string): (r: string)
    ensures |url| - 1 <= |r| <= |url| + 4
    ensures forall i :: 0 <= i < |url| - 1 ==> r[i] == url[i]
  {
    var cut := if EndsWith(url, "/") then url[..|url| - 1] else url;
    if EndsWith(cut, "/api") then cut else cut + "/api"
  }

  /** The URL every request is sent to: it always ends with `/api`. */
  function BaseUrl(env: Option<string>): (r: string)
    ensures EndsWith(r, "/api")
  {
    NormalizeEndsWithApi(Configured(env));
    Normalize(Configured(env))
  }

  /** api.js's top level: `apiUrl` is reassigned by each conditional in turn. */
  method ComputeBaseUrl(env: Option<string>) returns (apiUrl: string)
    ensures apiUrl == BaseUrl(env)
    ensures EndsWith(apiUrl, "/api")
  {
    apiUrl := if env.Some? && env.value != "" then env.value else DefaultUrl;
    if EndsWith(apiUrl, "/") {
      apiUrl := apiUrl[..|apiUrl| - 1];
    }
    if !EndsWith(apiUrl, "/api") {
      apiUrl := apiUrl + "/api";
    }
  }

  /** The result always ends with `/api`. */
  lemma NormalizeEndsWithApi(url: string)
    ensures EndsWith(Normalize(url), "/api")
  {
    var cut := if EndsWith(url, "/") then url[..|url| - 1] else url;
    if !EndsWith(cut, "/api") {
      EndsWithAppend(cut, "/api");
    }
  }

  /** The result is the URL with at most its one trailing slash cut, and
      `/api` then appended or not: nothing else is changed. */
  lemma NormalizeShape(url: string)
    ensures var r := Normalize(url);
      || r == url || r == url + "/api"
      || (url != [] && url[|url| - 1] == '/' && (r == url[..|url| - 1] || r == url[..|url| - 1] + "/api"))
  {
  }

  /** A URL already ending with `/api` is kept as it is. */
  lemma NormalizeKeepsApi(url: string)
    requires EndsWith(url, "/api")
    ensures Normalize(url) == url
  {
    assert url[|url| - 1] == "/api"[3];
  }

  /** A URL ending with `/api/` loses the slash and gains nothing: `/api` is not doubled. */
  lemma NormalizeTrailingSlash(prefix: string)
    ensures Normalize(prefix + "/api/") == prefix + "/api"
  {
    var url := prefix + "/api/";
    assert EndsWith(url, "/");
    assert url[..|url| - 1] == prefix + "/api";
    EndsWithAppend(prefix, "/api");
  }

  /** Normalizing twice gives what normalizing once gives. */
  lemma NormalizeIdempotent(url: string)
    ensures Normalize(Normalize(url)) == Normalize(url)
  {
    NormalizeEndsWithApi(url);
    NormalizeKeepsApi(Normalize(url));
  }

  /** Without `VITE_API_URL` the requests go to the local backend's `/api`. */
  lemma DefaultBaseUrl()
    ensures BaseUrl(None) == "http://localhost:8080/api"
    ensures BaseUrl(Some("")) == "http://localhost:8080/api"
  {
    NormalizeKeepsApi(DefaultUrl);
  }
}
