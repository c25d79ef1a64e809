/**
 * What the password-reset and the email-verification modules share: the
 * random token, its stored hash, and the deletions on a token table. The two
 * modules hold identical copies of `generateSecureToken` and `hashToken`
 * (password-reset.ts:15-35, email-verification.ts:9-29); both are modelled
 * once, here.
 */
module TokenTables {
  import opened Wrappers
  import opened Text
  import opened Hex
  import opened Schema

  /** 56 characters: the letters and digits without the look-alikes 0, 1, I, O, l and o. */
  const TokenAlphabet := "abcdefghijkmnpqrstuvwxyzABCDEFGHJKLMNPQRSTUVWXYZ23456789"

  /** The length of the `Uint8Array` filled with random bytes. */
  const TokenByteCount := 32

  /** A token table keyed by its `id` column. */
  type TokenTable = map<string, TokenRow>

  /** The token for the random bytes: the byte `b` becomes `alphabet[b % alphabet.length]`. */
  function TokenFromBytes(bytes: seq<byte>): (token: string)
    ensures |token| == |bytes|
    ensures forall i :: 0 <= i < |token| ==> token[i] in TokenAlphabet
  {
    seq(|bytes|, i requires 0 <= i < |bytes| => TokenAlphabet[bytes[i] % |TokenAlphabet|])
  }

  /**
   * `generateSecureToken`: the loop appending one alphabet character per
   * random byte. `bytes` are the values `crypto.getRandomValues` wrote.
   */
  method GenerateSecureToken(bytes: seq<byte>) returns (token: string)
    requires |bytes| == TokenByteCount
    ensures token == TokenFromBytes(bytes)
    ensures |token| == TokenByteCount
  {
    token := "";
    for i := 0 to |bytes|
      invariant token == TokenFromBytes(bytes[..i])
    {
      assert bytes[..i + 1] == bytes[..i] + [bytes[i]];
      token := token + [TokenAlphabet[bytes[i] % |TokenAlphabet|]];
    }
    assert bytes[..|bytes|] == bytes;
  }

  /**
   * `hashToken`: the SHA-256 digest of the token, as 64 lower-case hex
   * digits; `sha256` stands for `crypto.subtle.digest('SHA-256', ...)` over
   * the token's UTF-8 encoding.
   */
  function HashToken(sha256: string -> Digest, token: string): (h: string)
    ensures |h| == 64
    ensures HexDecode(h) == Some(sha256(token))
  {
    HexRoundTrip(sha256(token));
    HexEncode(sha256(token))
  }

  /** The ids of the user's rows. */
  function RowsOf(rows: TokenTable, userId: string): set<string>
  {
    set id | id in rows && rows[id].userId == userId
  }

  /** The ids of the rows whose stored hash is `tokenHash`. */
  function Matching(rows: TokenTable, tokenHash: string): set<string>
  {
    set id | id in rows && rows[id].tokenHash == tokenHash
  }

  /** `delete ... where userId = ?`. */
  function WithoutUser(rows: TokenTable, userId: string): (r: TokenTable)
    ensures RowsOf(r, userId) == {}
    ensures forall id :: id in rows && rows[id].userId != userId ==> id in r && r[id] == rows[id]
    ensures r.Keys <= rows.Keys
  {
    map id | id in rows && rows[id].userId != userId :: rows[id]
  }

  /** `delete ... where expiresAt < now`: strictly earlier than `now`. */
  function Unexpired(rows: TokenTable, now: int): (r: TokenTable)
    ensures forall id :: id in r ==> id in rows && r[id] == rows[id] && now <= r[id].expiresAt
    ensures forall id :: id in rows && now <= rows[id].expiresAt ==> id in r
  {
    map id | id in rows && !(rows[id].expiresAt < now) :: rows[id]
  }

  /** The validation rule: a token is rejected once `expiresAt <= now`. */
  predicate IsExpired(row: TokenRow, now: int)
  {
    row.expiresAt <= now
  }

  /** The row a create operation inserts, after deleting the user's old rows. */
  function Replaced(rows: TokenTable, userId: string, id: string, row: TokenRow): TokenTable
  {
    WithoutUser(rows, userId)[id := row]
  }

  /** After a create, the user owns exactly one row, the new one; the other users' rows are kept. */
  lemma ReplacedLeavesOneRow(rows: TokenTable, userId: string, id: string, row: TokenRow)
    requires row.userId == userId
    ensures RowsOf(Replaced(rows, userId, id, row), userId) == {id}
    ensures forall k :: k in rows && rows[k].userId != userId && k != id ==>
                        k in Replaced(rows, userId, id, row) && Replaced(rows, userId, id, row)[k] == rows[k]
  {
  }

  /**
   * When no row kept by the create has the new row's hash, a lookup by that
   * hash can only find the new row.
   */
  lemma ReplacedIsFoundByHash(rows: TokenTable, userId: string, id: string, row: TokenRow)
    requires forall k :: k in WithoutUser(rows, userId) ==> WithoutUser(rows, userId)[k].tokenHash != row.tokenHash
    ensures Matching(Replaced(rows, userId, id, row), row.tokenHash) == {id}
  {
  }

  /**
   * Cleanup and validation disagree at the boundary: a row expiring exactly
   * at `now` survives cleanup, yet validation rejects it.
   */
  lemma BoundaryRowSurvivesCleanup(rows: TokenTable, id: string, now: int)
    requires id in rows && rows[id].expiresAt == now
    ensures id in Unexpired(rows, now) && IsExpired(Unexpired(rows, now)[id], now)
  {
  }

  /** Cleanup keeps a row exactly when it does not expire strictly before `now`. */
  lemma CleanupKeepsExactlyUnexpired(rows: TokenTable, now: int)
    ensures forall id :: id in Unexpired(rows, now) <==> id in rows && rows[id].expiresAt >= now
  {
  }
}
