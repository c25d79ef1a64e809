/**
 * Invite-link signatures: an HMAC-SHA-256 over `inviteId:email`, written in
 * URL-safe base64, and its verification by a constant-time comparison.
 */
module InviteSignature {
  import opened Wrappers
  import opened Text
  import opened Schema
  import Base64

  /** The two environment variables the secret comes from; `None` is unset. */
  datatype Env = Env(inviteHmacSecret: Option<string>, tursoAuthToken: Option<string>)

  /** JavaScript truthiness of an environment variable: set and non-empty. */
  predicate Truthy(v: Option<string>)
  {
    v.Some? && v.value != ""
  }

  /** The `Error` thrown when neither variable is configured. */
  datatype ConfigError = NoSecretConfigured

  const DerivedSecretPrefix := "invite-hmac:"

  /**
   * `getHmacSecret()`: `INVITE_HMAC_SECRET` when it is set and non-empty,
   * else `invite-hmac:` followed by `TURSO_AUTH_TOKEN` when that is set and
   * non-empty, else an error. The secret is never empty.
   */
  function GetHmacSecret(env: Env): (r: Result<string, ConfigError>)
    ensures r.Ok? <==> Truthy(env.inviteHmacSecret) || Truthy(env.tursoAuthToken)
    ensures Truthy(env.inviteHmacSecret) ==> r == Ok(env.inviteHmacSecret.value)
    ensures !Truthy(env.inviteHmacSecret) && r.Ok? ==>
              r.value == DerivedSecretPrefix + env.tursoAuthToken.value && |r.value| > |DerivedSecretPrefix|
    ensures r.Ok? ==> r.value != ""
  {
    if Truthy(env.inviteHmacSecret) then Ok(env.inviteHmacSecret.value)
    else if Truthy(env.tursoAuthToken) then Ok(DerivedSecretPrefix + env.tursoAuthToken.value)
    else Err(NoSecretConfigured)
  }

  /**
   * The signed message `${inviteId}:${email.toLowerCase()}`: the invite id, a
   * colon, then as many characters as the address has, none of them an
   * upper-case letter.
   */
  function SignedMessage(inviteId: string, email: string): (m: string)
    ensures |m| == |inviteId| + 1 + |email|
    ensures m[..|inviteId|] == inviteId && m[|inviteId|] == ':'
    ensures forall k :: |inviteId| < k < |m| ==> !IsUpper(m[k])
  {
    inviteId + ":" + ToLowerCase(email)
  }

  /**
   * `createInviteSignature(inviteId, email)`: `hmac(key, message)` stands for
   * HMAC-SHA-256 over the UTF-8 bytes of both. The signature is 43
   * characters of the URL-safe alphabet, and it is an error exactly when no
   * secret is configured.
   */
  function CreateInviteSignature(env: Env, hmac: (string, string) -> Digest, inviteId: string, email: string)
    : (r: Result<string, ConfigError>)
    ensures r.Ok? <==> GetHmacSecret(env).Ok?
    ensures r.Ok? ==> |r.value| == 43 && forall i :: 0 <= i < 43 ==> Base64.IsUrlSafe(r.value[i])
  {
    match GetHmacSecret(env)
    case Err(e) => Err(e)
    case Ok(secret) =>
      var mac := hmac(secret, SignedMessage(inviteId, email));
      Base64.UrlEncodingOf32Bytes(mac);
      Ok(Base64.ToBase64Url(Base64.Encode(mac)))
  }

  /** Two addresses that differ only in letter case get the same signature. */
  lemma SignatureIgnoresEmailCase(env: Env, hmac: (string, string) -> Digest, inviteId: string, e1: string, e2: string)
    requires ToLowerCase(e1) == ToLowerCase(e2)
    ensures CreateInviteSignature(env, hmac, inviteId, e1) == CreateInviteSignature(env, hmac, inviteId, e2)
  {
  }

  /**
   * `verifyInviteSignature(inviteId, email, signature)`: recompute the
   * signature, refuse a length mismatch, then OR together the XORs of the
   * character codes. Any failure while recomputing (no secret configured)
   * is caught and yields false.
   */
  method VerifyInviteSignature(env: Env, hmac: (string, string) -> Digest, inviteId: string, email: string,
                               signature: string)
    returns (valid: bool)
    ensures valid <==> CreateInviteSignature(env, hmac, inviteId, email) == Ok(signature)
    ensures GetHmacSecret(env).Err? || |signature| != 43 ==> !valid
  {
    var expected := CreateInviteSignature(env, hmac, inviteId, email);
    if expected.Err? {
      return false;
    }
    valid := CharCodesEqual(signature, expected.value);
  }

  /**
   * The comparison inside `verifyInviteSignature`: false on a length
   * mismatch, otherwise the OR of the XORs of the UTF-16 code units, which
   * is zero exactly when every pair agrees.
   */
  method CharCodesEqual(signature: string, expectedSignature: string) returns (equal: bool)
    ensures equal <==> signature == expectedSignature
  {
    if |signature| != |expectedSignature| {
      return false;
    }
    var result: nat := 0;
    for i := 0 to |signature|
      invariant result == 0 <==> signature[..i] == expectedSignature[..i]
    {
      var x, y := signature[i] as int, expectedSignature[i] as int;
      assert signature[..i + 1] == signature[..i] + [signature[i]];
      assert expectedSignature[..i + 1] == expectedSignature[..i] + [expectedSignature[i]];
      result := BitOr(result, BitXor(x, y));
    }
    assert signature[..|signature|] == signature && expectedSignature[..|signature|] == expectedSignature;
    return result == 0;
  }

  /**
   * A signature just created for an invite verifies for the same invite
   * and address, whenever a secret is configured.
   */
  method SignThenVerify(env: Env, hmac: (string, string) -> Digest, inviteId: string, email: string)
    returns (signature: string, valid: bool)
    requires GetHmacSecret(env).Ok?
    ensures |signature| == 43
    ensures valid
  {
    signature := CreateInviteSignature(env, hmac, inviteId, email).value;
    valid := VerifyInviteSignature(env, hmac, inviteId, email, signature);
  }
}
