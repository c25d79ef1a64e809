/**
 * Record shapes of the database tables the core reads and writes. Every table
 * is a map from its primary key `id` to the rest of the row; timestamps are
 * milliseconds since the epoch.
 */
module Schema {
  import opened Wrappers
  import opened Text

  /** The 32-byte output of SHA-256 and of HMAC-SHA-256. */
  type Digest = s: seq<byte> | |s| == 32 witness seq(32, _ => 0)

  /** A row of `users` (the columns the core touches). */
  datatype User = User(email: string, name: string, emailVerified: bool, createdAt: int, updatedAt: int)

  /** A row of `password_reset_tokens` or of `email_verification_tokens`. */
  datatype TokenRow = TokenRow(userId: string, tokenHash: string, expiresAt: int, createdAt: int)

  /** A row of `sessions`. */
  datatype SessionRow = SessionRow(userId: string, secretHash: string, expiresAt: int)

  /** A row of `households`. */
  datatype Household = Household(
    name: string,
    creatorId: string,
    imageUrl: Option<string>,
    bannerUrl: Option<string>,
    primaryColor: Option<string>,
    secondaryColor: Option<string>,
    createdAt: int,
    updatedAt: int)

  datatype Role = Admin | Member

  /** A row of `household_members`. */
  datatype HouseholdMember = HouseholdMember(
    householdId: string,
    userId: string,
    role: Role,
    displayName: Option<string>,
    joinedAt: int)

  /** What an insert whose primary key is already taken throws. */
  datatype DbError = PrimaryKeyTaken
}
