/**
 * Email verification: tokens in `email_verification_tokens` that, used once
 * before they expire, mark their user's address as verified.
 */
module EmailVerification {
  import opened Wrappers
  import opened Text
  import opened Schema
  import opened TokenTables

  const TokenExpiresInHours := 24
  const VerificationTokenLifetimeMs := TokenExpiresInHours * 60 * 60 * 1000

  /**
   * `update users set emailVerified = true, updatedAt = now where id = ?`:
   * touches the one user with that id, and nothing when there is none.
   */
  function MarkVerified(users: map<string, User>, userId: string, now: int): (r: map<string, User>)
    ensures r.Keys == users.Keys
    ensures userId in r ==> r[userId].emailVerified && r[userId].updatedAt == now
    ensures userId in r ==> r[userId].(emailVerified := false, updatedAt := 0)
                            == users[userId].(emailVerified := false, updatedAt := 0)
    ensures forall u :: u in users && u != userId ==> r[u] == users[u]
  {
    if userId in users then users[userId := users[userId].(emailVerified := true, updatedAt := now)]
    else users
  }

  /** `email_verification_tokens` beside `users`, with the SHA-256 function hashes are computed with. */
  class VerificationStore {
    const sha256: string -> Digest
    var tokens: TokenTable
    var users: map<string, User>

    constructor (sha256: string -> Digest, users: map<string, User>)
      ensures this.sha256 == sha256 && tokens == map[] && this.users == users
    {
      this.sha256 := sha256;
      tokens := map[];
      this.users := users;
    }

    /**
     * `createEmailVerificationToken(userId)` at time `now`: delete the user's
     * old tokens, then insert one for a fresh token expiring in 24 hours.
     * An `id` already in the table makes the insert throw, after the delete.
     */
    method CreateEmailVerificationToken(userId: string, bytes: seq<byte>, id: string, now: int)
      returns (r: Result<string, DbError>)
      requires |bytes| == TokenByteCount
      modifies this
      ensures users == old(users)
      ensures var cleared := WithoutUser(old(tokens), userId);
              if id in cleared then r == Err(PrimaryKeyTaken) && tokens == cleared
              else r == Ok(TokenFromBytes(bytes)) &&
                   tokens == Replaced(old(tokens), userId, id,
                                      TokenRow(userId, HashToken(sha256, r.value), now + VerificationTokenLifetimeMs, now))
    {
      tokens := WithoutUser(tokens, userId);
      var token := GenerateSecureToken(bytes);
      var tokenHash := HashToken(sha256, token);
      var expiresAt := now + TokenExpiresInHours * 60 * 60 * 1000;
      if id in tokens {
        return Err(PrimaryKeyTaken);
      }
      tokens := tokens[id := TokenRow(userId, tokenHash, expiresAt, now)];
      return Ok(token);
    }

    /**
     * `verifyEmail(token)` at time `now`. With no row for the token's hash:
     * false, nothing changes. Otherwise one such row is deleted in either
     * case; the answer is true, and its user is marked verified, exactly
     * when the row had not expired (`expiresAt > now`).
     */
    method VerifyEmail(token: string, now: int) returns (verified: bool)
      modifies this
      ensures var found := Matching(old(tokens), HashToken(sha256, token));
              && (found == {} ==> !verified && tokens == old(tokens) && users == old(users))
              && (found != {} ==>
                    exists id :: id in found && tokens == old(tokens) - {id} &&
                      verified == !IsExpired(old(tokens)[id], now) &&
                      users == if verified then MarkVerified(old(users), old(tokens)[id].userId, now)
                               else old(users))
      ensures var h := HashToken(sha256, token);
              Matching(tokens, h) <= Matching(old(tokens), h) &&
              |Matching(tokens, h)| == if Matching(old(tokens), h) == {} then 0 else |Matching(old(tokens), h)| - 1
    {
      var tokenHash := HashToken(sha256, token);
      var found := Matching(tokens, tokenHash);
      if found == {} {
        return false;
      }
      var id :| id in found;
      var row := tokens[id];
      assert Matching(tokens - {id}, tokenHash) == found - {id};
      assert |found - {id}| == |found| - 1;
      if row.expiresAt <= now {
        tokens := tokens - {id};
        return false;
      }
      users := MarkVerified(users, row.userId, now);
      tokens := tokens - {id};
      return true;
    }

    /** `deleteUserEmailVerificationTokens(userId)`. */
    method DeleteUserEmailVerificationTokens(userId: string)
      modifies this
      ensures tokens == WithoutUser(old(tokens), userId) && users == old(users)
    {
      tokens := WithoutUser(tokens, userId);
    }

    /** `cleanupExpiredEmailVerificationTokens()` at time `now`. */
    method CleanupExpiredEmailVerificationTokens(now: int)
      modifies this
      ensures tokens == Unexpired(old(tokens), now) && users == old(users)
    {
      tokens := Unexpired(tokens, now);
    }
  }

  /**
   * A verification token works at most once: when no other row shares its
   * hash, a first use before expiry verifies the user, and a second use of
   * the same token is refused and changes nothing.
   */
  method VerifyTwice(store: VerificationStore, token: string, now: int, later: int)
    returns (first: bool, second: bool)
    requires |Matching(store.tokens, HashToken(store.sha256, token))| <= 1
    modifies store
    ensures !second
    ensures Matching(store.tokens, HashToken(store.sha256, token)) == {}
    ensures first ==> exists u :: store.users == MarkVerified(old(store.users), u, now)
    ensures !first ==> store.users == old(store.users)
  {
    first := store.VerifyEmail(token, now);
    second := store.VerifyEmail(token, later);
  }
}
