/**
  The browser-side relay: the provider callbacks build a payload, `authUser`
  posts it to the authentication endpoint, and the completion handler decides
  whether to reload the page.
 */
module Relay {

  import opened Optional

  /** A posted body: field names to string values. */
  type Payload = map<string, string>

  /**
    `xhr.responseJSON` once the request completes: JSON `null`, an object
    (or array) with its own property names, a JSON string, number or boolean,
    or `undefined` when the body was not parsed as JSON.
   */
  datatype ResponseJson =
    | JsonNull
    | Object(ownKeys: set<string>)
    | Primitive
    | Undefined

  /** What the `complete` handler does. */
  datatype Completion =
    | Reload
    | Ignore
    | TypeError  // `response.hasOwnProperty(...)` throws

  /** The request `authUser` issues. */
  datatype Request = Request(url: string, httpMethod: string, body: Payload, nonce: string)

  /** What a provider callback does with the provider's answer. */
  datatype Relayed =
    | Send(payload: Payload)
    | Silent
    | Throws  // reading a property of a null `authResponse`

  /** The Facebook login status: its `status` and the `accessToken` of its `authResponse`, if any. */
  datatype LoginStatus = LoginStatus(status: string, authResponse: Option<string>)

  /**
    The `complete` handler: `response === null || response.hasOwnProperty('data')`.
    A primitive has no own `data` property. The call throws on `undefined`, and
    on an object whose own `hasOwnProperty` key shadows the method with a JSON
    value, which is never a function.
   */
  function Complete(response: ResponseJson): (c: Completion)
    ensures c == Reload <==> (
      || response == JsonNull
      || (response.Object? && "data" in response.ownKeys && "hasOwnProperty" !in response.ownKeys))
    ensures c == TypeError <==> (
      || response == Undefined
      || (response.Object? && "hasOwnProperty" in response.ownKeys))
  {
    match response
    case JsonNull => Reload
    case Object(ownKeys) =>
      if "hasOwnProperty" in ownKeys then TypeError
      else if "data" in ownKeys then Reload
      else Ignore
    case Primitive => Ignore
    case Undefined => TypeError
  }

  /**
    Only the `data` and `hasOwnProperty` keys of an object response matter:
    any other keys the server adds leave the decision unchanged.
   */
  lemma CompleteIgnoresOtherKeys(keys: set<string>, extra: set<string>)
    requires "data" !in extra && "hasOwnProperty" !in extra
    ensures Complete(Object(keys + extra)) == Complete(Object(keys))
  {
  }

  /** `data.authenticator` in a string context: a missing field reads as "undefined". */
  function AuthenticatorText(data: Payload): string {
    if "authenticator" in data then data["authenticator"] else "undefined"
  }

  /**
    `authUser(data)`: a POST of exactly `data` to the API URL followed by the
    authenticator name, carrying the API nonce.
   */
  function AuthUser(data: Payload, apiUrl: string, apiNonce: string): (req: Request)
    ensures req.httpMethod == "POST"
    ensures req.body == data
    ensures req.nonce == apiNonce
    ensures |req.url| == |apiUrl| + |AuthenticatorText(data)|
    ensures req.url[..|apiUrl|] == apiUrl
    ensures req.url[|apiUrl|..] == AuthenticatorText(data)
  {
    Request(apiUrl + AuthenticatorText(data), "POST", data, apiNonce)
  }

  /**
    `onFacebookAuth`'s status callback: it relays the access token only for
    the "connected" status and does nothing for any other status.
   */
  function OnFacebookAuth(response: LoginStatus): (r: Relayed)
    ensures response.status != "connected" ==> r == Silent
    ensures r.Send? <==> response.status == "connected" && response.authResponse.Some?
    ensures r == Throws <==> response.status == "connected" && response.authResponse.None?
    ensures r.Send? ==> r.payload.Keys == {"authenticator", "access_token"}
    ensures r.Send? ==> r.payload["authenticator"] == "facebook"
    ensures r.Send? ==> r.payload["access_token"] == response.authResponse.value
  {
    if response.status != "connected" then
      Silent
    else if response.authResponse.None? then
      Throws
    else
      Send(map["authenticator" := "facebook", "access_token" := response.authResponse.value])
  }

  /** `onGoogleAuth`: it always relays the credential as the Google ID token. */
  function OnGoogleAuth(credential: string): (p: Payload)
    ensures p.Keys == {"authenticator", "id_token"}
    ensures p["authenticator"] == "google"
    ensures p["id_token"] == credential
  {
    map["authenticator" := "google", "id_token" := credential]
  }

  /** A Google credential is posted, unchanged, to the Google authenticator's endpoint. */
  lemma GoogleRelayTarget(credential: string, apiUrl: string, apiNonce: string)
    ensures AuthUser(OnGoogleAuth(credential), apiUrl, apiNonce).url == apiUrl + "google"
    ensures AuthUser(OnGoogleAuth(credential), apiUrl, apiNonce).body["id_token"] == credential
  {
  }

  /** A connected Facebook status posts its token, unchanged, to the Facebook endpoint. */
  lemma FacebookRelayTarget(token: string, apiUrl: string, apiNonce: string)
    ensures OnFacebookAuth(LoginStatus("connected", Some(token))).Send?
    ensures AuthUser(OnFacebookAuth(LoginStatus("connected", Some(token))).payload, apiUrl, apiNonce).url
      == apiUrl + "facebook"
  {
  }

  /** Sample decisions: `null` and `{"data": ...}` reload, `{"status": ...}` does not, and a shadowed `hasOwnProperty` throws. */
  lemma CompletionScenarios()
    ensures Complete(JsonNull) == Reload
    ensures Complete(Object({"data"})) == Reload
    ensures Complete(Object({"status"})) == Ignore
    ensures Complete(Object({"data", "hasOwnProperty"})) == TypeError
  {
  }
}

/**
  The hand-off between the relay and the verifier: the host framework delivers
  the posted fields to the response filter as string parameters.
 */
module LoginFlow {

  import opened PhpValue
  import Relay
  import GoogleAuthentication

  /** The posted body as the server sees it: every field a PHP string. */
  function ServerParams(body: Relay.Payload): (params: map<string, Value>)
    ensures params.Keys == body.Keys
    ensures forall k :: k in body ==> params[k] == Str(body[k])
  {
    map k | k in body :: Str(body[k])
  }

  /** The token the Google callback relays is the one the filter sends to Google's token-info endpoint. */
  lemma GoogleCredentialReachesVerifier(credential: string, apiUrl: string, apiNonce: string)
    ensures GoogleAuthentication.RequestedIdToken(
      ServerParams(Relay.AuthUser(Relay.OnGoogleAuth(credential), apiUrl, apiNonce).body)) == Str(credential)
  {
  }
}
