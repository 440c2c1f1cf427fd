# HivePress Google/Facebook authentication, modelled in Dafny

This project models the decision logic of a social-login add-on for the
HivePress WordPress plugin.

On the server, the Google authentication component registers a response filter
only when Google sign-in is enabled and a client ID is configured. The filter
takes the decoded answer of Google's token-info endpoint and does one of three
things. It passes the answer through unchanged when it is empty or carries an
error. It rejects the answer with `invalid_client` or `unverified_email`. Or it
adds the canonical user fields `id`, `first_name` and `last_name`.

In the browser, the relay does three things. Each provider callback builds a
payload. `authUser` posts that payload to the authentication endpoint. The
completion handler decides whether to reload the page.

Files:

- `php_value.dfy`: PHP values (`PhpValue.Value`), truthiness, strict identity,
  array reads, `isset`, and `in_array` over an `(array)` cast. It also holds a
  small `Optional` module.
- `google_authentication.dfy`: the enabling predicate of the constructor,
  `set_response` after the fetch, and the properties of both.
- `relay.dfy`: the `common.js` relay (module `Relay`), and the hand-off of the
  Google credential to the filter (module `LoginFlow`).

The decoded token-info body is a parameter, `Option<map<string, Value>>`.
`None` stands for a body that `json_decode` turned into `null`. The configured
options are parameters too: the auth-methods list and the client ID, both as
PHP values. The filter's incoming `$response` argument is overwritten by the
fetch before it is read, so the model does not take it.

Three points of PHP and JavaScript semantics are kept exactly:

- The client ID and the string `'true'` are compared with `===`. So the boolean
  `true`, the string `"false"`, a missing flag and an integer audience are all
  rejected.
- A missing key reads as `null`. `isset` treats an `error` key whose value is
  `null` as absent. Such a response is checked like any other, and on success
  its `error => null` entry is kept (`AcceptedHasNoSetError`).
- In the relay, `responseJSON` can be `undefined`. The `=== null` test does not
  catch it, so `hasOwnProperty` throws. The call also throws when the response
  object has its own `hasOwnProperty` key, whose JSON value shadows the method.
  The model returns `TypeError` in both cases.

## Model

| member | source | states |
|---|---|---|
| PhpValue.InArrayStrict | includes/components/class-google-authentication.php:24 | the strict `in_array` scan of `(array) $option` finds the needle exactly when it is a member of the cast array (null gives no members, a scalar gives itself) |
| GoogleAuthentication.RegistersResponseFilter | includes/components/class-google-authentication.php:24-28 | the response filter is registered exactly when `'google'` is strictly in the auth-methods list and the client ID is truthy, so a registered client ID is never null, `""` or `"0"` |
| GoogleAuthentication.EnabledForStringOptions | includes/components/class-google-authentication.php:24 | with a list of method names and a string client ID, the component is enabled iff "google" is listed and the ID is neither empty nor "0" |
| GoogleAuthentication.RequestedIdToken | includes/components/class-google-authentication.php:55 | the token sent to Google is the request's `id_token` field, or null when the field is absent |
| GoogleAuthentication.SetResponse | includes/components/class-google-authentication.php:62-76 | a null, empty or error-carrying response is returned unchanged; otherwise a wrong audience gives exactly `{error: invalid_client}`; then a flag that is not the string "true" gives exactly `{error: unverified_email}`; otherwise the result adds `id`, `first_name` and `last_name` from `sub`, `given_name` and `family_name` and keeps every other key and value |
| GoogleAuthentication.ErrorPassesThrough | includes/components/class-google-authentication.php:62-76 | a response with a set `error` comes back identical |
| GoogleAuthentication.InvalidClientExactly | includes/components/class-google-authentication.php:64-65 | for a checked response, the result is `invalid_client` iff the audience is not strictly the client ID, whatever the email flag says |
| GoogleAuthentication.UnverifiedEmailExactly | includes/components/class-google-authentication.php:64-70 | for a checked response, the result is `unverified_email` iff the audience matches and the flag is anything but the string "true", so the audience check takes precedence |
| GoogleAuthentication.EmailFlagMustBeStringTrue | includes/components/class-google-authentication.php:68-69 | the boolean `true`, the string "false" and a missing flag are all rejected as `unverified_email` |
| GoogleAuthentication.MissingAudienceRefused | includes/components/class-google-authentication.php:64-65 | when the component is enabled, a checked response without `aud` is always `invalid_client` |
| GoogleAuthentication.AcceptedMeansVerified | includes/components/class-google-authentication.php:62-76 | any non-empty result without a set error came from a checked response whose audience matched and whose flag was "true", and carries the mapped fields |
| GoogleAuthentication.AcceptedHasNoSetError | includes/components/class-google-authentication.php:62-74 | a successful result never has a set `error`; it has an `error` key only if the input had one with a null value |
| GoogleAuthentication.SetResponseIdempotent | includes/components/class-google-authentication.php:62-76 | filtering a filtered response again gives the same result |
| GoogleAuthentication.VerifiedTokenScenario | includes/components/class-google-authentication.php:72-76 | a verified token for the configured audience keeps all its claims and gains `id`, `first_name` and `last_name` |
| GoogleAuthentication.InvalidTokenScenario | includes/components/class-google-authentication.php:62-76 | `{error: invalid_token}` comes back unchanged |
| Relay.Complete | assets/js/common.js:13-18 | the page reloads iff the response is JSON null or an object with an own `data` property and no own `hasOwnProperty` key; the handler throws iff the response is undefined or has an own `hasOwnProperty` key; anything else does nothing |
| Relay.CompleteIgnoresOtherKeys | assets/js/common.js:15 | adding object keys other than `data` and `hasOwnProperty` never changes the reload decision |
| Relay.CompletionScenarios | assets/js/common.js:14-17 | `null` and `{data}` reload, `{status}` does not, and `{data, hasOwnProperty}` throws |
| Relay.AuthUser | assets/js/common.js:6-12 | the request is a POST whose body is exactly the payload, whose URL is the API URL followed by the authenticator (or "undefined" when it is missing), and which carries the API nonce |
| Relay.OnFacebookAuth | assets/js/common.js:23-32 | only a "connected" status with an auth response relays, and then exactly `{authenticator: facebook, access_token}`; a "connected" status with a null auth response throws; any other status sends nothing |
| Relay.FacebookRelayTarget | assets/js/common.js:24-30 | a connected status posts to the API URL followed by "facebook" |
| Relay.OnGoogleAuth | assets/js/common.js:35-41 | the callback always relays exactly `{authenticator: google, id_token: credential}` |
| Relay.GoogleRelayTarget | assets/js/common.js:35-40 | the Google credential is posted unchanged to the API URL followed by "google" |
| LoginFlow.GoogleCredentialReachesVerifier | includes/components/class-google-authentication.php:55 | the credential the Google callback relays is the `id_token` the filter sends to Google's token-info endpoint |

## Left out

- The token-info fetch (`wp_remote_get`, `wp_remote_retrieve_body`, `json_decode`, the query string): this is network I/O and library parsing. The decoded body is a parameter instead.
- A body that decodes to a JSON scalar or a JSON list: the model takes a decoded object or `null`, which is what the token-info endpoint returns.
- `get_option`: the options are parameters and are not read from a global store.
- PhpValue.Identical: PHP's `===` on two arrays (a list against an object with keys "0", "1", ..., or key order) is not modelled. Equality of values stands in for it, which agrees with PHP whenever one side is a scalar.
- JSON numbers too large for PHP's integers, which `json_decode` turns into floats.
- Hook registration (`add_filter`, `add_action`) and the `is_user_logged_in`/`is_admin` gating: this is framework plumbing. `RegistersResponseFilter` only decides whether the filter is registered.
- `enqueue_scripts`, `render_header`, `render_button` and `render_footer`: they only emit HTML and script. The footer's `setTimeout` polling depends on timing and the browser.
- The jQuery transport, the form encoding of the posted body, `window.location.reload` and the Facebook and Google SDKs: these belong to the browser and third parties.
- LoginFlow.ServerParams: it models no line of the source. It states the host framework's delivery of the posted fields to the filter, assumed to arrive as PHP strings with the same names.
- Relay.OnFacebookAuth: an `authResponse` that exists but has no `accessToken`, which would post `access_token: undefined`, is not modelled. The token is a string whenever an auth response is present.
- Relay.OnGoogleAuth: a credential response without a `credential` property, which would post `undefined`, is not modelled. The credential is a string.
