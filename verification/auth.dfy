/** Bearer-token authentication of API requests. */
module Auth {
  import opened Wrappers

  /** The key used when the environment configures none; it also switches
      authentication off. */
  const DefaultApiKey: string := "1"

  /** `env.API_MASTER_KEY || CONFIG.API_MASTER_KEY`: an absent or empty
      environment key falls back to the default. The key in force is never
      empty. */
  function ResolveApiKey(envKey: Option<string>): (key: string)
    ensures key != ""
    ensures key == DefaultApiKey <==> envKey.None? || envKey.value in {"", DefaultApiKey}
    ensures key != DefaultApiKey ==> envKey == Some(key)
  {
    match envKey
    case Some(k) => if k != "" then k else DefaultApiKey
    case None => DefaultApiKey
  }

  /** `verifyAuth`: with the default key every request passes; otherwise a
      request passes exactly when its Authorization header is
      "Bearer " followed by the key. `authHeader && ...` is falsy for a
      missing or empty header. */
  function VerifyAuth(apiKey: string, authorization: Option<string>): (ok: bool)
    ensures apiKey == DefaultApiKey ==> ok
    ensures apiKey != DefaultApiKey ==> (ok <==> authorization == Some("Bearer " + apiKey))
  {
    if apiKey == DefaultApiKey then true
    else
      match authorization
      case None => false
      case Some(header) => header != "" && header == "Bearer " + apiKey
  }

  /** A deployment without a configured key accepts every request, with or
      without a header. */
  lemma UnconfiguredAcceptsAll(envKey: Option<string>, authorization: Option<string>)
    requires envKey.None? || envKey == Some("")
    ensures VerifyAuth(ResolveApiKey(envKey), authorization)
  {
  }

  /** With a configured non-default key, a request without the header is
      rejected, and so is one whose header is the bare key. */
  lemma ConfiguredKeyRejects(key: string)
    requires key != "" && key != DefaultApiKey
    ensures !VerifyAuth(ResolveApiKey(Some(key)), None)
    ensures !VerifyAuth(ResolveApiKey(Some(key)), Some(key))
  {
  }
}
