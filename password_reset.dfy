/**
 * Password reset: the in-memory rate limiter on reset requests and the
 * lifecycle of the reset tokens in `password_reset_tokens`.
 */
module PasswordReset {
  import opened Wrappers
  import opened Text
  import opened Schema
  import opened TokenTables

  const TokenExpiresInMinutes := 15
  const ResetTokenLifetimeMs := TokenExpiresInMinutes * 60 * 1000
  const RateLimitWindowMs := 60 * 60 * 1000
  const MaxRequestsPerWindow := 3

  /** The attempt timestamps stored under a key; a missing key reads as no attempts. */
  function Stored(attempts: map<string, seq<int>>, key: string): seq<int>
  {
    if key in attempts then attempts[key] else []
  }

  /**
   * `attempts.filter((timestamp) => timestamp > windowStart)`: the
   * timestamps strictly after the window start.
   */
  function InWindow(ts: seq<int>, windowStart: int): (r: seq<int>)
    ensures |r| <= |ts|
    ensures forall t :: t in r <==> t in ts && t > windowStart
  {
    if ts == [] then []
    else (if ts[0] > windowStart then [ts[0]] else []) + InWindow(ts[1..], windowStart)
  }

  /** The state `checkRateLimit` leaves: the caller's list pruned to the last hour. */
  function Pruned(attempts: map<string, seq<int>>, email: string, now: int): (r: map<string, seq<int>>)
    ensures r.Keys == attempts.Keys + {ToLowerCase(email)}
    ensures forall k :: k in attempts && k != ToLowerCase(email) ==> r[k] == attempts[k]
  {
    var key := ToLowerCase(email);
    attempts[key := InWindow(Stored(attempts, key), now - RateLimitWindowMs)]
  }

  /**
   * The answer of `checkRateLimit`: the request is admitted exactly when
   * fewer than three stored timestamps of the lower-cased email are later
   * than `now - 1 hour`.
   */
  function Admits(attempts: map<string, seq<int>>, email: string, now: int): (allowed: bool)
    ensures var ts := Stored(attempts, ToLowerCase(email));
            allowed <==> |PositionsAfter(ts, now - RateLimitWindowMs, |ts|)| < 3
  {
    var ts := Stored(attempts, ToLowerCase(email));
    InWindowCounts(ts, now - RateLimitWindowMs, |ts|);
    assert ts[..|ts|] == ts;
    |InWindow(ts, now - RateLimitWindowMs)| < MaxRequestsPerWindow
  }

  /** The state `recordAttempt` leaves: `now` appended to the caller's list. */
  function Recorded(attempts: map<string, seq<int>>, email: string, now: int): (r: map<string, seq<int>>)
    ensures r.Keys == attempts.Keys + {ToLowerCase(email)}
    ensures forall k :: k in attempts && k != ToLowerCase(email) ==> r[k] == attempts[k]
  {
    var key := ToLowerCase(email);
    attempts[key := Stored(attempts, key) + [now]]
  }

  /** The module-level `rateLimitMap`: lower-cased email to attempt timestamps, oldest first. */
  class RateLimiter {
    var attempts: map<string, seq<int>>

    constructor ()
      ensures attempts == map[]
    {
      attempts := map[];
    }

    /** `checkRateLimit(email)` at time `now`. */
    method CheckRateLimit(email: string, now: int) returns (allowed: bool)
      modifies this
      ensures attempts == Pruned(old(attempts), email, now)
      ensures allowed == Admits(old(attempts), email, now)
    {
      var normalizedEmail := ToLowerCase(email);
      var windowStart := now - RateLimitWindowMs;
      var stored := if normalizedEmail in attempts then attempts[normalizedEmail] else [];
      var recentAttempts := InWindow(stored, windowStart);
      attempts := attempts[normalizedEmail := recentAttempts];
      allowed := |recentAttempts| < MaxRequestsPerWindow;
    }

    /** `recordAttempt(email)` at time `now`. */
    method RecordAttempt(email: string, now: int)
      modifies this
      ensures attempts == Recorded(old(attempts), email, now)
    {
      var normalizedEmail := ToLowerCase(email);
      var stored := if normalizedEmail in attempts then attempts[normalizedEmail] else [];
      attempts := attempts[normalizedEmail := stored + [now]];
    }
  }

  /** Filtering a concatenation filters each part and keeps their order. */
  lemma {:induction false} InWindowAppend(a: seq<int>, b: seq<int>, windowStart: int)
    ensures InWindow(a + b, windowStart) == InWindow(a, windowStart) + InWindow(b, windowStart)
  {
    if a != [] {
      assert (a + b)[1..] == a[1..] + b;
      InWindowAppend(a[1..], b, windowStart);
    } else {
      assert a + b == b;
    }
  }

  /** Filtering an already filtered list changes nothing. */
  lemma {:induction false} InWindowIdempotent(ts: seq<int>, windowStart: int)
    ensures InWindow(InWindow(ts, windowStart), windowStart) == InWindow(ts, windowStart)
  {
    if ts != [] {
      var head := if ts[0] > windowStart then [ts[0]] else [];
      InWindowAppend(head, InWindow(ts[1..], windowStart), windowStart);
      InWindowIdempotent(ts[1..], windowStart);
    }
  }

  /** The positions of `ts[..n]` that hold a timestamp after the window start. */
  function PositionsAfter(ts: seq<int>, windowStart: int, n: nat): set<nat>
    requires n <= |ts|
  {
    set i: nat | i < n && ts[i] > windowStart
  }

  /** The filtered list has one entry per stored timestamp after the window start. */
  lemma {:induction false} InWindowCounts(ts: seq<int>, windowStart: int, n: nat)
    requires n <= |ts|
    ensures |InWindow(ts[..n], windowStart)| == |PositionsAfter(ts, windowStart, n)|
  {
    if n > 0 {
      InWindowCounts(ts, windowStart, n - 1);
      assert ts[..n] == ts[..n - 1] + [ts[n - 1]];
      InWindowAppend(ts[..n - 1], [ts[n - 1]], windowStart);
      assert [ts[n - 1]][1..] == [];
      if ts[n - 1] > windowStart {
        assert PositionsAfter(ts, windowStart, n) == PositionsAfter(ts, windowStart, n - 1) + {n - 1};
      } else {
        assert PositionsAfter(ts, windowStart, n) == PositionsAfter(ts, windowStart, n - 1);
      }
    } else {
      assert PositionsAfter(ts, windowStart, 0) == {};
    }
  }

  /**
   * `checkRateLimit` records nothing: a second call at the same time gives
   * the same answer and leaves the same state.
   */
  lemma CheckRateLimitRepeatable(attempts: map<string, seq<int>>, email: string, now: int)
    ensures Admits(Pruned(attempts, email, now), email, now) == Admits(attempts, email, now)
    ensures Pruned(Pruned(attempts, email, now), email, now) == Pruned(attempts, email, now)
  {
    InWindowIdempotent(Stored(attempts, ToLowerCase(email)), now - RateLimitWindowMs);
  }

  /** Addresses that differ only in letter case share one attempt list. */
  lemma CaseInsensitiveKey(attempts: map<string, seq<int>>, e1: string, e2: string, now: int)
    requires ToLowerCase(e1) == ToLowerCase(e2)
    ensures Admits(attempts, e1, now) == Admits(attempts, e2, now)
    ensures Pruned(attempts, e1, now) == Pruned(attempts, e2, now)
    ensures Recorded(attempts, e1, now) == Recorded(attempts, e2, now)
  {
  }

  /**
   * The forgot-password action checks, and records only when admitted. An
   * admitted request leaves at most three attempts in the window ending at
   * `now`, the new one included and last.
   */
  lemma AdmittedAttemptKeepsLimit(attempts: map<string, seq<int>>, email: string, now: int)
    requires Admits(attempts, email, now)
    ensures var after := Recorded(Pruned(attempts, email, now), email, now);
            var recent := InWindow(Stored(after, ToLowerCase(email)), now - RateLimitWindowMs);
            0 < |recent| <= MaxRequestsPerWindow && recent[|recent| - 1] == now
  {
    var key := ToLowerCase(email);
    var ws := now - RateLimitWindowMs;
    var pruned := InWindow(Stored(attempts, key), ws);
    assert Stored(Recorded(Pruned(attempts, email, now), email, now), key) == pruned + [now];
    InWindowAppend(pruned, [now], ws);
    InWindowIdempotent(Stored(attempts, key), ws);
    assert InWindow([now], ws) == [now];
  }

  /** `password_reset_tokens`, with the SHA-256 function its hashes are computed with. */
  class ResetTokenStore {
    const sha256: string -> Digest
    var rows: TokenTable

    constructor (sha256: string -> Digest)
      ensures this.sha256 == sha256 && rows == map[]
    {
      this.sha256 := sha256;
      rows := map[];
    }

    /**
     * `createPasswordResetToken(userId)` at time `now`: delete the user's old
     * tokens, then insert one whose hash is that of a fresh token expiring in
     * 15 minutes. `bytes` are the random bytes and `id` the generated UUID;
     * an `id` already in the table makes the insert throw, after the delete.
     */
    method CreatePasswordResetToken(userId: string, bytes: seq<byte>, id: string, now: int)
      returns (r: Result<string, DbError>)
      requires |bytes| == TokenByteCount
      modifies this
      ensures var cleared := WithoutUser(old(rows), userId);
              if id in cleared then r == Err(PrimaryKeyTaken) && rows == cleared
              else r == Ok(TokenFromBytes(bytes)) &&
                   rows == Replaced(old(rows), userId, id,
                                    TokenRow(userId, HashToken(sha256, r.value), now + ResetTokenLifetimeMs, now))
    {
      rows := WithoutUser(rows, userId);
      var token := GenerateSecureToken(bytes);
      var tokenHash := HashToken(sha256, token);
      var expiresAt := now + TokenExpiresInMinutes * 60 * 1000;
      if id in rows {
        return Err(PrimaryKeyTaken);
      }
      rows := rows[id := TokenRow(userId, tokenHash, expiresAt, now)];
      return Ok(token);
    }

    /**
     * `validatePasswordResetToken(token)` at time `now`: look up a row with
     * the token's hash (any one, as `limit 1` does); reject and delete it if
     * `expiresAt <= now`; otherwise return its user and change nothing.
     */
    method ValidatePasswordResetToken(token: string, now: int) returns (userId: Option<string>)
      modifies this
      ensures var found := Matching(old(rows), HashToken(sha256, token));
              && (found == {} ==> userId == None && rows == old(rows))
              && (found != {} ==>
                    exists id :: id in found &&
                      if IsExpired(old(rows)[id], now) then userId == None && rows == old(rows) - {id}
                      else userId == Some(old(rows)[id].userId) && rows == old(rows))
    {
      var tokenHash := HashToken(sha256, token);
      var found := Matching(rows, tokenHash);
      if found == {} {
        return None;
      }
      var id :| id in found;
      var row := rows[id];
      if row.expiresAt <= now {
        rows := rows - {id};
        userId := None;
      } else {
        userId := Some(row.userId);
      }
      assert IsExpired(row, now) <==> row.expiresAt <= now;
      assert id in found && old(rows)[id] == row;
    }

    /** `deleteUserPasswordResetTokens(userId)`. */
    method DeleteUserPasswordResetTokens(userId: string)
      modifies this
      ensures rows == WithoutUser(old(rows), userId)
    {
      rows := WithoutUser(rows, userId);
    }

    /** `cleanupExpiredTokens()` at time `now`. */
    method CleanupExpiredTokens(now: int)
      modifies this
      ensures rows == Unexpired(old(rows), now)
    {
      rows := Unexpired(rows, now);
    }
  }

  /**
   * A token just created is accepted until it expires, provided no other
   * stored row carries the same hash: it validates to its user before
   * `now + 15 minutes`, and from then on it is rejected and deleted.
   */
  method ResetTokenLifecycle(store: ResetTokenStore, userId: string, bytes: seq<byte>, id: string, now: int, later: int)
    returns (token: string, accepted: Option<string>)
    requires |bytes| == TokenByteCount
    requires id !in store.rows
    requires forall k :: k in store.rows ==> store.rows[k].tokenHash != HashToken(store.sha256, TokenFromBytes(bytes))
    modifies store
    ensures accepted == if later < now + ResetTokenLifetimeMs then Some(userId) else None
    ensures later >= now + ResetTokenLifetimeMs ==> RowsOf(store.rows, userId) == {}
  {
    var r := store.CreatePasswordResetToken(userId, bytes, id, now);
    token := r.value;
    ghost var row := TokenRow(userId, HashToken(store.sha256, token), now + ResetTokenLifetimeMs, now);
    ReplacedIsFoundByHash(old(store.rows), userId, id, row);
    ReplacedLeavesOneRow(old(store.rows), userId, id, row);
    accepted := store.ValidatePasswordResetToken(token, later);
  }
}
