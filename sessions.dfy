/**
 * Sessions: the random `id.secret` token handed to the browser, the row in
 * `sessions` that stores the secret's SHA-256 digest as hex, validation with
 * a constant-time comparison and an expiry check, and the session cookie.
 */
module Sessions {
  import opened Wrappers
  import opened Text
  import opened Hex
  import opened Schema

  const SessionCookieName := "session"
  const SessionExpiresInSeconds := 60 * 60 * 24 * 7
  const SessionLifetimeMs := SessionExpiresInSeconds * 1000

  /** 32 characters, so that `b >> 3` of any byte indexes it; no `.` among them. */
  const SessionAlphabet := "abcdefghijkmnpqrstuvwxyz23456789"
  const RandomStringByteCount := 24

  /** The string for the random bytes: the byte `b` becomes `alphabet[b >> 3]`. */
  function RandomStringFromBytes(bytes: seq<byte>): (s: string)
    ensures |s| == |bytes|
    ensures forall i :: 0 <= i < |s| ==> s[i] in SessionAlphabet && s[i] != '.'
  {
    seq(|bytes|, i requires 0 <= i < |bytes| => SessionAlphabet[bytes[i] / 8])
  }

  /**
   * `generateSecureRandomString`: the loop appending `alphabet[bytes[i] >> 3]`
   * for each of the 24 random bytes; the shift never leaves the alphabet.
   */
  method GenerateSecureRandomString(bytes: seq<byte>) returns (s: string)
    requires |bytes| == RandomStringByteCount
    ensures s == RandomStringFromBytes(bytes)
    ensures |s| == RandomStringByteCount
  {
    s := "";
    for i := 0 to |bytes|
      invariant s == RandomStringFromBytes(bytes[..i])
    {
      ShiftRightByte(bytes[i]);
      assert bytes[..i + 1] == bytes[..i] + [bytes[i]];
      s := s + [SessionAlphabet[ShiftRight(bytes[i], 3)]];
    }
    assert bytes[..|bytes|] == bytes;
  }

  /**
   * `constantTimeEqual`: false on a length mismatch, otherwise the OR of the
   * byte-wise XORs, which is zero exactly when every pair of bytes agrees.
   */
  method ConstantTimeEqual(a: seq<byte>, b: seq<byte>) returns (equal: bool)
    ensures equal <==> a == b
  {
    if |a| != |b| {
      return false;
    }
    var c: nat := 0;
    for i := 0 to |a|
      invariant c == 0 <==> a[..i] == b[..i]
    {
      assert a[..i + 1] == a[..i] + [a[i]] && b[..i + 1] == b[..i] + [b[i]];
      c := BitOr(c, BitXor(a[i], b[i]));
    }
    assert a[..|a|] == a && b[..|b|] == b;
    return c == 0;
  }

  /**
   * The session token `${sessionId}.${sessionSecret}`: the id, a dot at
   * position `|sessionId|`, then the secret.
   */
  function FormatToken(sessionId: string, secret: string): (token: string)
    ensures |token| == |sessionId| + 1 + |secret|
    ensures token[..|sessionId|] == sessionId && token[|sessionId|] == '.'
    ensures token[|sessionId| + 1..] == secret
  {
    sessionId + "." + secret
  }

  /** `piece` contains no dot. */
  predicate NoDot(piece: string)
  {
    forall k :: 0 <= k < |piece| ==> piece[k] != '.'
  }

  /** `s.split('.')`: the pieces between the dots, empty ones included. */
  function SplitDot(s: string): (parts: seq<string>)
    ensures |parts| >= 1
    ensures forall i :: 0 <= i < |parts| ==> NoDot(parts[i])
  {
    if s == [] then [""]
    else if s[0] == '.' then [""] + SplitDot(s[1..])
    else
      var rest := SplitDot(s[1..]);
      [[s[0]] + rest[0]] + rest[1..]
  }

  /**
   * The first piece of `s.split('.')` is the text before the first dot: either
   * the whole string, or a prefix followed by a dot, the remainder splitting
   * into the other pieces.
   */
  lemma {:induction false} SplitDotHead(s: string)
    ensures var parts := SplitDot(s);
            if |parts| == 1 then parts[0] == s
            else |parts[0]| < |s| && s[..|parts[0]|] == parts[0] && s[|parts[0]|] == '.'
                 && SplitDot(s[|parts[0]| + 1..]) == parts[1..]
  {
    if s != [] && s[0] != '.' {
      SplitDotHead(s[1..]);
      var rest := SplitDot(s[1..]);
      if |rest| == 1 {
        assert [s[0]] + s[1..] == s;
      } else {
        assert s[1..][|rest[0]| + 1..] == s[|rest[0]| + 2..];
        assert s[..|rest[0]| + 1] == [s[0]] + s[1..][..|rest[0]|];
      }
    }
  }

  /** `piece` is non-empty and has no dot. */
  predicate IsTokenPiece(piece: string)
  {
    piece != "" && NoDot(piece)
  }

  /**
   * `const [sessionId, sessionSecret] = token.split('.')` followed by the
   * `!sessionId || !sessionSecret` check: the first two pieces, when both
   * exist and are non-empty. Any later piece is ignored, so the token is the
   * formatted pair, possibly followed by a dot and more text.
   */
  function ParseToken(token: string): (r: Option<(string, string)>)
    ensures r.Some? ==> IsTokenPiece(r.value.0) && IsTokenPiece(r.value.1)
    ensures r.Some? ==> var t := FormatToken(r.value.0, r.value.1);
              |t| <= |token| && token[..|t|] == t && (|t| < |token| ==> token[|t|] == '.')
  {
    var parts := SplitDot(token);
    if parts[0] == "" || |parts| < 2 || parts[1] == "" then None
    else
      SplitDotHead(token);
      var rest := token[|parts[0]| + 1..];
      SplitDotHead(rest);
      JoinedPrefix(token, parts[0], parts[1], rest);
      Some((parts[0], parts[1]))
  }

  /**
   * When `s` is `p0`, a dot and `u`, and `u` is `p1` or starts with `p1` and a
   * dot, then `s` starts with `p0.p1`, followed by nothing or by a dot.
   */
  lemma JoinedPrefix(s: string, p0: string, p1: string, u: string)
    requires |p0| < |s| && s[..|p0|] == p0 && s[|p0|] == '.' && u == s[|p0| + 1..]
    requires u == p1 || (|p1| < |u| && u[..|p1|] == p1 && u[|p1|] == '.')
    ensures var t := FormatToken(p0, p1);
            |t| <= |s| && s[..|t|] == t && (|t| < |s| ==> s[|t|] == '.')
  {
    var n, m := |p0|, |p1|;
    var rest := u[m..];
    assert s == p0 + "." + u by {
      assert s == s[..n] + [s[n]] + s[n + 1..];
    }
    assert u == p1 + rest by {
      assert u == u[..m] + u[m..];
    }
    var t := FormatToken(p0, p1);
    assert s == t + rest;
    assert s[..|t|] == t;
  }

  /** Splitting a string that starts with a dot-free piece and a dot. */
  lemma {:induction false} SplitDotAfterPiece(piece: string, rest: string)
    requires NoDot(piece)
    ensures SplitDot(piece + "." + rest) == [piece] + SplitDot(rest)
  {
    if piece == [] {
      assert piece + "." + rest == "." + rest;
      assert ("." + rest)[1..] == rest;
    } else {
      assert (piece + "." + rest)[1..] == piece[1..] + "." + rest;
      SplitDotAfterPiece(piece[1..], rest);
      assert [piece[0]] + piece[1..] == piece;
    }
  }

  /** A dot-free string splits into itself alone. */
  lemma {:induction false} SplitDotWhole(piece: string)
    requires NoDot(piece)
    ensures SplitDot(piece) == [piece]
  {
    if piece != [] {
      SplitDotWhole(piece[1..]);
      assert [piece[0]] + piece[1..] == piece;
    }
  }

  /**
   * Parsing undoes formatting for the non-empty, dot-free pieces this module
   * generates, and still finds them when more dot-separated text follows.
   */
  lemma ParseFormatToken(sessionId: string, secret: string, extra: Option<string>)
    requires IsTokenPiece(sessionId) && IsTokenPiece(secret)
    ensures ParseToken(FormatToken(sessionId, secret) + (if extra.Some? then "." + extra.value else ""))
            == Some((sessionId, secret))
  {
    var tail := if extra.Some? then "." + extra.value else "";
    assert FormatToken(sessionId, secret) + tail == sessionId + "." + (secret + tail);
    SplitDotAfterPiece(sessionId, secret + tail);
    if extra.Some? {
      assert secret + tail == secret + "." + extra.value;
      SplitDotAfterPiece(secret, extra.value);
    } else {
      assert secret + tail == secret;
      SplitDotWhole(secret);
    }
  }

  /** A token without a dot, or with an empty first or second piece, is refused. */
  lemma ParseRefusesMissingPiece(sessionId: string, secret: string)
    requires NoDot(sessionId)
    requires sessionId == "" || secret == "" || secret[0] == '.'
    ensures ParseToken(sessionId) == None
    ensures ParseToken(sessionId + "." + secret) == None
  {
    SplitDotWhole(sessionId);
    SplitDotAfterPiece(sessionId, secret);
    if secret != [] && secret[0] == '.' {
      assert SplitDot(secret) == [""] + SplitDot(secret[1..]);
    }
  }

  /** What a successful validation returns: the session joined with its user. */
  datatype SessionWithUser = SessionWithUser(id: string, userId: string, expiresAt: int, user: User)

  /**
   * The `TypeError` thrown when the stored hash has no character `.` can
   * match, so that `match` returns `null`.
   */
  datatype ValidationError = StoredHashUnreadable

  /** A cookie as `createSessionCookie` and `createBlankSessionCookie` return it. */
  datatype Cookie = Cookie(name: string, value: string, httpOnly: bool, sameSite: string, path: string, maxAge: int)

  /**
   * `createSessionCookie(token)`: an HTTP-only cookie carrying the token that
   * lives, in seconds, exactly as long as a session row does in milliseconds.
   */
  function CreateSessionCookie(token: string): (c: Cookie)
    ensures c.name == SessionCookieName && c.value == token && c.httpOnly && c.path == "/"
    ensures c.maxAge * 1000 == SessionLifetimeMs
  {
    Cookie(SessionCookieName, token, true, "lax", "/", SessionExpiresInSeconds)
  }

  /**
   * `createBlankSessionCookie()`: the cookie that overwrites any session
   * cookie (same name, attributes and path) with an empty value and expires
   * at once.
   */
  function CreateBlankSessionCookie(): (c: Cookie)
    ensures forall token :: CreateSessionCookie(token).(value := "", maxAge := 0) == c
  {
    Cookie(SessionCookieName, "", true, "lax", "/", 0)
  }

  /** `delete from sessions where userId = ?`. */
  function WithoutUserSessions(sessions: map<string, SessionRow>, userId: string): (r: map<string, SessionRow>)
    ensures forall id :: id in r <==> id in sessions && sessions[id].userId != userId
    ensures forall id :: id in r ==> r[id] == sessions[id]
  {
    map id | id in sessions && sessions[id].userId != userId :: sessions[id]
  }

  /** `sessions`, keyed by session id, with the SHA-256 function secrets are hashed with. */
  class SessionStore {
    const sha256: string -> Digest
    var sessions: map<string, SessionRow>

    constructor (sha256: string -> Digest)
      ensures this.sha256 == sha256 && sessions == map[]
    {
      this.sha256 := sha256;
      sessions := map[];
    }

    /**
     * `createSession(userId)` at time `now`, with the two 24-byte random
     * draws for the id and the secret. The row stores the secret's digest
     * as hex and expires in 7 days; an id already taken makes the insert throw.
     */
    method CreateSession(userId: string, idBytes: seq<byte>, secretBytes: seq<byte>, now: int)
      returns (r: Result<string, DbError>)
      requires |idBytes| == RandomStringByteCount && |secretBytes| == RandomStringByteCount
      modifies this
      ensures var sessionId, secret := RandomStringFromBytes(idBytes), RandomStringFromBytes(secretBytes);
              if sessionId in old(sessions) then r == Err(PrimaryKeyTaken) && sessions == old(sessions)
              else r == Ok(FormatToken(sessionId, secret)) &&
                   sessions == old(sessions)[sessionId := SessionRow(userId, HexEncode(sha256(secret)), now + SessionLifetimeMs)]
    {
      var sessionId := GenerateSecureRandomString(idBytes);
      var sessionSecret := GenerateSecureRandomString(secretBytes);
      var secretHash := sha256(sessionSecret);
      var expiresAt := now + SessionExpiresInSeconds * 1000;
      var secretHashHex := HexEncode(secretHash);
      if sessionId in sessions {
        return Err(PrimaryKeyTaken);
      }
      sessions := sessions[sessionId := SessionRow(userId, secretHashHex, expiresAt)];
      return Ok(FormatToken(sessionId, sessionSecret));
    }

    /**
     * `validateSessionToken(token)` at time `now`, joined with `users`. A
     * session comes back only when the token parses, its row and user exist,
     * the secret's digest equals the stored one and `expiresAt > now`; a
     * matching but expired session is deleted.
     */
    method ValidateSessionToken(token: string, users: map<string, User>, now: int)
      returns (r: Result<Option<SessionWithUser>, ValidationError>)
      modifies this
      ensures match ParseToken(token)
              case None => r == Ok(None) && sessions == old(sessions)
              case Some((sessionId, secret)) =>
                if sessionId !in old(sessions) || old(sessions)[sessionId].userId !in users then
                  r == Ok(None) && sessions == old(sessions)
                else
                  var row := old(sessions)[sessionId];
                  match HexDecode(row.secretHash)
                  case None => r == Err(StoredHashUnreadable) && sessions == old(sessions)
                  case Some(stored) =>
                    if sha256(secret) != stored then r == Ok(None) && sessions == old(sessions)
                    else if row.expiresAt <= now then r == Ok(None) && sessions == old(sessions) - {sessionId}
                    else r == Ok(Some(SessionWithUser(sessionId, row.userId, row.expiresAt, users[row.userId])))
                         && sessions == old(sessions)
      ensures r.Ok? && r.value.Some? ==> r.value.value.expiresAt > now && r.value.value.id in sessions
    {
      var parsed := ParseToken(token);
      if parsed.None? {
        return Ok(None);
      }
      var (sessionId, sessionSecret) := parsed.value;
      if sessionId !in sessions || sessions[sessionId].userId !in users {
        return Ok(None);
      }
      var session := sessions[sessionId];
      var user := users[session.userId];
      var storedHash := HexDecode(session.secretHash);
      if storedHash.None? {
        return Err(StoredHashUnreadable);
      }
      var tokenSecretHash := sha256(sessionSecret);
      var equal := ConstantTimeEqual(tokenSecretHash, storedHash.value);
      if !equal {
        return Ok(None);
      }
      if session.expiresAt <= now {
        DeleteSession(sessionId);
        return Ok(None);
      }
      return Ok(Some(SessionWithUser(sessionId, session.userId, session.expiresAt, user)));
    }

    /** `deleteSession(sessionId)`. */
    method DeleteSession(sessionId: string)
      modifies this
      ensures sessions == old(sessions) - {sessionId}
    {
      sessions := sessions - {sessionId};
    }

    /** `deleteUserSessions(userId)`. */
    method DeleteUserSessions(userId: string)
      modifies this
      ensures sessions == WithoutUserSessions(old(sessions), userId)
    {
      sessions := WithoutUserSessions(sessions, userId);
    }
  }

  /**
   * A session just created validates, with its cookie, until its row
   * expires 7 days later; from then on validation refuses it and deletes
   * the row.
   */
  method SessionLifecycle(store: SessionStore, users: map<string, User>, userId: string,
                          idBytes: seq<byte>, secretBytes: seq<byte>, now: int, later: int)
    returns (token: string, cookie: Cookie, validated: Result<Option<SessionWithUser>, ValidationError>)
    requires |idBytes| == RandomStringByteCount && |secretBytes| == RandomStringByteCount
    requires RandomStringFromBytes(idBytes) !in store.sessions
    requires userId in users
    modifies store
    ensures cookie.value == token && now + cookie.maxAge * 1000 == now + SessionLifetimeMs
    ensures later < now + SessionLifetimeMs ==>
              validated == Ok(Some(SessionWithUser(RandomStringFromBytes(idBytes), userId, now + SessionLifetimeMs, users[userId])))
    ensures later >= now + SessionLifetimeMs ==>
              validated == Ok(None) && RandomStringFromBytes(idBytes) !in store.sessions
  {
    var r := store.CreateSession(userId, idBytes, secretBytes, now);
    token := r.value;
    cookie := CreateSessionCookie(token);
    var sessionId, secret := RandomStringFromBytes(idBytes), RandomStringFromBytes(secretBytes);
    ParseFormatToken(sessionId, secret, None);
    assert FormatToken(sessionId, secret) + "" == token;
    HexRoundTrip(store.sha256(secret));
    validated := store.ValidateSessionToken(token, users, later);
  }
}
