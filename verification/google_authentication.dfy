/**
  The Google authentication component: whether its token-info response filter
  is registered, and how that filter validates and normalises the decoded
  token-info response.
 */
module GoogleAuthentication {

  import opened Optional
  import opened PhpValue

  /** A decoded JSON object, as `json_decode(..., true)` returns it. */
  type Response = map<string, Value>

  const InvalidClient: Response := map["error" := Str("invalid_client")]
  const UnverifiedEmail: Response := map["error" := Str("unverified_email")]

  /** The canonical user fields the filter adds on success. */
  const CanonicalKeys: set<string> := {"id", "first_name", "last_name"}

  // ---------------------------------------------------------------------------
  // Enabling predicate of the constructor
  // ---------------------------------------------------------------------------

  /**
    The filter is registered when `'google'` is, strictly, a member of the
    auth-methods option cast to an array, and the client-ID option is truthy.
   */
  predicate GoogleEnabled(authMethods: Value, clientId: Value) {
    Str("google") in CastMembers(authMethods) && Truthy(clientId)
  }

  /**
    The constructor's guard, evaluated as the source does: the `in_array`
    scan first and the client ID only when that scan succeeds.
   */
  method RegistersResponseFilter(authMethods: Value, clientId: Value) returns (registered: bool)
    ensures registered <==> GoogleEnabled(authMethods, clientId)
    ensures registered ==> clientId != Null && clientId != Str("") && clientId != Str("0")
  {
    var listed := InArrayStrict(Str("google"), authMethods);
    if !listed || !Truthy(clientId) {
      return false;
    }
    registered := true;
  }

  /**
    With the options stored as a list of method names and a client-ID string,
    the component is enabled exactly when "google" is listed and the client
    ID is neither empty nor "0".
   */
  lemma EnabledForStringOptions(methods: seq<string>, clientId: string)
    ensures GoogleEnabled(List(StrList(methods)), Str(clientId))
        <==> "google" in methods && clientId != "" && clientId != "0"
  {
  }

  /** A list of PHP strings, one per name. */
  function StrList(names: seq<string>): (values: seq<Value>)
    ensures |values| == |names|
    ensures forall i :: 0 <= i < |names| ==> values[i] == Str(names[i])
  {
    seq(|names|, i requires 0 <= i < |names| => Str(names[i]))
  }

  // ---------------------------------------------------------------------------
  // The response filter
  // ---------------------------------------------------------------------------

  /** `hp\get_array_value($request, 'id_token')`: the token sent to Google, null when absent. */
  function RequestedIdToken(request: map<string, Value>): (token: Value)
    ensures "id_token" !in request ==> token == Null
    ensures "id_token" in request ==> token == request["id_token"]
  {
    Read(request, "id_token")
  }

  /**
    `$response && ! isset($response['error'])`: the decoded response is a
    non-empty array without a set error, so the filter goes on to check it.
   */
  predicate Checked(decoded: Option<Response>) {
    decoded.Some? && |decoded.value| > 0 && !IsSet(decoded.value, "error")
  }

  /**
    The outcome of a successful check: `out` is `m` with `id`, `first_name`
    and `last_name` copied from `sub`, `given_name` and `family_name` (null
    when those are missing), and every other key of `m` kept as it was.
   */
  ghost predicate MappedFrom(m: Response, out: Response) {
    && out.Keys == m.Keys + CanonicalKeys
    && out["id"] == Read(m, "sub")
    && out["first_name"] == Read(m, "given_name")
    && out["last_name"] == Read(m, "family_name")
    && forall k :: k in m && k !in CanonicalKeys ==> out[k] == m[k]
  }

  /**
    `set_response` after the token-info fetch: `decoded` is the decoded body
    (None when it decoded to null) and `clientId` the configured client ID.
   */
  function SetResponse(decoded: Option<Response>, clientId: Value): (r: Option<Response>)
    ensures !Checked(decoded) ==> r == decoded
    ensures Checked(decoded) && !Identical(clientId, Read(decoded.value, "aud"))
      ==> r == Some(InvalidClient)
    ensures Checked(decoded) && Identical(clientId, Read(decoded.value, "aud"))
        && !Identical(Str("true"), Read(decoded.value, "email_verified"))
      ==> r == Some(UnverifiedEmail)
    ensures Checked(decoded) && Identical(clientId, Read(decoded.value, "aud"))
        && Identical(Str("true"), Read(decoded.value, "email_verified"))
      ==> r.Some? && MappedFrom(decoded.value, r.value)
  {
    if !Checked(decoded) then
      decoded
    else
      var m := decoded.value;
      if !Identical(clientId, Read(m, "aud")) then
        Some(InvalidClient)
      else if !Identical(Str("true"), Read(m, "email_verified")) then
        Some(UnverifiedEmail)
      else
        var withId := m["id" := Read(m, "sub")];
        var withFirst := withId["first_name" := Read(withId, "given_name")];
        var withLast := withFirst["last_name" := Read(withFirst, "family_name")];
        Some(withLast)
  }

  // ---------------------------------------------------------------------------
  // Properties of the response filter
  // ---------------------------------------------------------------------------

  /** A response carrying a set `error` passes through unchanged. */
  lemma ErrorPassesThrough(m: Response, clientId: Value)
    requires IsSet(m, "error")
    ensures SetResponse(Some(m), clientId) == Some(m)
  {
  }

  /**
    For a checked response, the result is `invalid_client` exactly when the
    audience is not strictly the client ID, whatever `email_verified` holds.
   */
  lemma InvalidClientExactly(m: Response, clientId: Value)
    requires Checked(Some(m))
    ensures SetResponse(Some(m), clientId) == Some(InvalidClient)
        <==> !Identical(clientId, Read(m, "aud"))
  {
    var r := SetResponse(Some(m), clientId);
    assert InvalidClient["error"] != UnverifiedEmail["error"];
    if Identical(clientId, Read(m, "aud")) && Identical(Str("true"), Read(m, "email_verified")) {
      assert "id" in r.value && "id" !in InvalidClient && "id" !in UnverifiedEmail;
    }
  }

  /**
    For a checked response, the result is `unverified_email` exactly when the
    audience matches and `email_verified` is anything but the string "true".
   */
  lemma UnverifiedEmailExactly(m: Response, clientId: Value)
    requires Checked(Some(m))
    ensures SetResponse(Some(m), clientId) == Some(UnverifiedEmail)
        <==> Identical(clientId, Read(m, "aud")) && !Identical(Str("true"), Read(m, "email_verified"))
  {
    var r := SetResponse(Some(m), clientId);
    assert InvalidClient["error"] != UnverifiedEmail["error"];
    if Identical(clientId, Read(m, "aud")) && Identical(Str("true"), Read(m, "email_verified")) {
      assert "id" in r.value && "id" !in InvalidClient && "id" !in UnverifiedEmail;
    }
  }

  /**
    The boolean `true`, the string "false" and a missing flag are all refused:
    only the exact string "true" passes the email check.
   */
  lemma EmailFlagMustBeStringTrue(m: Response, clientId: Value)
    requires Checked(Some(m)) && Identical(clientId, Read(m, "aud"))
    requires Read(m, "email_verified") in {Bool(true), Str("false"), Null}
    ensures SetResponse(Some(m), clientId) == Some(UnverifiedEmail)
  {
  }

  /**
    When the component is enabled the client ID is truthy, so a checked
    response without an `aud` key is always refused as `invalid_client`.
   */
  lemma MissingAudienceRefused(m: Response, authMethods: Value, clientId: Value)
    requires GoogleEnabled(authMethods, clientId)
    requires Checked(Some(m)) && "aud" !in m
    ensures SetResponse(Some(m), clientId) == Some(InvalidClient)
  {
  }

  /**
    A result that is a non-empty array without a set error can only come from
    a successful check: the audience matched, the email flag was the string
    "true" and the canonical fields were added.
   */
  lemma AcceptedMeansVerified(decoded: Option<Response>, clientId: Value)
    requires SetResponse(decoded, clientId).Some?
    requires |SetResponse(decoded, clientId).value| > 0
    requires !IsSet(SetResponse(decoded, clientId).value, "error")
    ensures Checked(decoded)
    ensures Identical(clientId, Read(decoded.value, "aud"))
    ensures Identical(Str("true"), Read(decoded.value, "email_verified"))
    ensures MappedFrom(decoded.value, SetResponse(decoded, clientId).value)
  {
  }

  /**
    A successful result never carries a set `error`: an `error` key survives
    only when it was already present with a null value.
   */
  lemma AcceptedHasNoSetError(m: Response, clientId: Value)
    requires Checked(Some(m))
    requires Identical(clientId, Read(m, "aud")) && Identical(Str("true"), Read(m, "email_verified"))
    ensures !IsSet(SetResponse(Some(m), clientId).value, "error")
    ensures "error" in SetResponse(Some(m), clientId).value <==> "error" in m
  {
    assert "error" !in CanonicalKeys;
  }

  /** Filtering an already filtered response changes nothing. */
  lemma {:induction false} SetResponseIdempotent(decoded: Option<Response>, clientId: Value)
    ensures SetResponse(SetResponse(decoded, clientId), clientId) == SetResponse(decoded, clientId)
  {
    var r := SetResponse(decoded, clientId);
    if !Checked(decoded) {
    } else if !Identical(clientId, Read(decoded.value, "aud")) {
      assert IsSet(r.value, "error");
    } else if !Identical(Str("true"), Read(decoded.value, "email_verified")) {
      assert IsSet(r.value, "error");
    } else {
      var m := decoded.value;
      var out := r.value;
      assert Read(out, "aud") == Read(m, "aud");
      assert Read(out, "email_verified") == Read(m, "email_verified");
      assert "error" !in CanonicalKeys;
      assert Checked(r);
      var again := SetResponse(r, clientId).value;
      assert MappedFrom(out, again);
      assert Read(out, "sub") == Read(m, "sub");
      assert Read(out, "given_name") == Read(m, "given_name");
      assert Read(out, "family_name") == Read(m, "family_name");
      forall k | k in again
        ensures again[k] == out[k]
      {
      }
      assert again == out;
    }
  }

  /** Token info for a verified address with the configured audience. */
  lemma VerifiedTokenScenario()
    ensures
      var tokenInfo := map[
        "sub" := Str("123"), "aud" := Str("CID"), "email_verified" := Str("true"),
        "given_name" := Str("A"), "family_name" := Str("B"), "email" := Str("a@b.com")];
      SetResponse(Some(tokenInfo), Str("CID")) == Some(tokenInfo[
        "id" := Str("123")]["first_name" := Str("A")]["last_name" := Str("B")])
  {
  }

  /** An error reported by Google comes back as it was. */
  lemma InvalidTokenScenario()
    ensures
      var tokenInfo := map["error" := Str("invalid_token")];
      SetResponse(Some(tokenInfo), Str("CID")) == Some(tokenInfo)
  {
  }
}
