/** URL construction for the backend (src/utils/api.js). */
module Api {

  /** The address used when NEXT_PUBLIC_API_BASE_URL is unset or empty. */
  const DefaultBaseUrl := "http://localhost:5001"

  /** API_BASE_URL: the configured base address (`env`, "" when unset), or
      the default when that is empty. */
  function ApiBaseUrl(env: string): (r: string)
    ensures env != "" ==> r == env
    ensures env == "" ==> r == DefaultBaseUrl
  {
    if env != "" then env else DefaultBaseUrl
  }

  /** `buildApiUrl`: the base, one '/', then the endpoint with at most one
      leading '/' removed. */
  function BuildApiUrl(base: string, endpoint: string): (r: string)
    ensures |endpoint| > 0 && endpoint[0] == '/' ==> r == base + endpoint
    ensures !(|endpoint| > 0 && endpoint[0] == '/') ==> r == base + "/" + endpoint
  {
    var clean := if |endpoint| > 0 && endpoint[0] == '/' then endpoint[1..] else endpoint;
    base + "/" + clean
  }

  /** Every URL built on the configured base starts with a non-empty base
      and one '/', and with the default address when nothing is
      configured. */
  lemma UrlsStartAtTheBase(env: string, endpoint: string)
    ensures ApiBaseUrl(env) != ""
    ensures ApiBaseUrl(env) + "/" <= BuildApiUrl(ApiBaseUrl(env), endpoint)
    ensures env == "" ==> DefaultBaseUrl + "/" <= BuildApiUrl(ApiBaseUrl(env), endpoint)
  {
  }

  /** A leading '/' on an endpoint that has none is optional. */
  lemma LeadingSlashOptional(base: string, e: string)
    requires !(|e| > 0 && e[0] == '/')
    ensures BuildApiUrl(base, "/" + e) == BuildApiUrl(base, e)
  {
    assert ("/" + e)[1..] == e;
  }

  /** Only one slash is removed: "//x" keeps one of its two slashes, so the
      equation above does not extend to endpoints that already start with
      '/'. */
  lemma OnlyOneSlashRemoved(base: string)
    ensures BuildApiUrl(base, "//x") == base + "//x"
    ensures BuildApiUrl(base, "/" + "/x") != BuildApiUrl(base, "/x")
  {
    assert BuildApiUrl(base, "/x") == base + "/x";
    assert |base + "//x"| != |base + "/x"|;
  }
}
